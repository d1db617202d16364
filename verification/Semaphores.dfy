/** kernel/semaphore.c, with the two halves of a blocking wait as separate steps. */
module Semaphores {
  import opened Arith
  import opened Sched
  import opened Waiters
  import opened Effects
  import opened Kernel

  const ERR_NOT_READY: int := -3

  /** `supply` is the initial value plus the posts so far, `passed` the number of waits that have returned
      success. */
  datatype Sem = Sem(count: int, w: Waiters, supply: nat, passed: nat)

  datatype Act = Post | Wait(t: nat, timeout: nat) | TryWait(t: nat) | Timeout(t: nat) | Wakeup(t: nat)

  function Fresh(value: nat): Sem {
    Sem(value, NoWaiters, value, 0)
  }

  predicate Can(m: Sem, a: Act) {
    match a
    case Post => true
    case Wait(t, _) => !Inside(m.w, t)
    case TryWait(t) => !Inside(m.w, t)
    case Timeout(t) => Inside(m.w, t) && t in m.w.timed
    case Wakeup(t) => t in m.w.woken
  }

  function Do(m: Sem, a: Act): Sem
    requires Can(m, a)
  {
    match a
    case Post => m.(count := m.count + 1, w := if m.count < 0 then Grant(m.w) else m.w, supply := m.supply + 1)
    case Wait(t, timeout) =>
      if m.count > 0 then m.(count := m.count - 1, passed := m.passed + 1)
      else if timeout == 0 then m
      else m.(count := m.count - 1, w := Join(m.w, t, timeout))
    case TryWait(t) => if m.count > 0 then m.(count := m.count - 1, passed := m.passed + 1) else m
    case Timeout(t) => m.(w := Expire(m.w, t))
    case Wakeup(t) =>
      if m.w.woken[t] == NO_ERROR then m.(passed := m.passed + 1, w := Leaves(m.w, t))
      else m.(count := m.count + 1, w := Leaves(m.w, t))
  }

  /** The code with which a wait returns in this step, if one does. */
  function Returned(m: Sem, a: Act): Option<int>
    requires Can(m, a)
  {
    match a
    case Wait(t, timeout) =>
      if m.count > 0 then Some(NO_ERROR) else if timeout == 0 then Some(ERR_TIMED_OUT) else None
    case TryWait(t) => Some(if m.count <= 0 then ERR_NOT_READY else NO_ERROR)
    case Wakeup(t) => Some(m.w.woken[t])
    case Post => None
    case Timeout(_) => None
  }

  /** Units supplied and neither taken nor handed to a thread that is about to run. */
  function Unclaimed(m: Sem): int {
    m.supply - m.passed - |Granted(m.w)|
  }

  ghost predicate SemOk(m: Sem) {
    Ok(m.w) && 0 <= Unclaimed(m) && m.count == Unclaimed(m) - |m.w.list| - |Late(m.w)|
  }

  lemma DoOk(m: Sem, a: Act)
    requires SemOk(m) && Can(m, a)
    ensures SemOk(Do(m, a))
  {
    match a
    case Post =>
      if m.w.list != [] {
        GrantOk(m.w);
      }
    case Wait(t, timeout) =>
      if m.count <= 0 {
        JoinOk(m.w, t, timeout);
      }
    case TryWait(t) =>
    case Timeout(t) => ExpireOk(m.w, t);
    case Wakeup(t) => LeavesOk(m.w, t);
  }

  predicate Legal(m: Sem, acts: seq<Act>)
    decreases |acts|
  {
    acts == [] || (Can(m, acts[0]) && Legal(Do(m, acts[0]), acts[1..]))
  }

  function After(m: Sem, acts: seq<Act>): Sem
    requires Legal(m, acts)
    decreases |acts|
  {
    if acts == [] then m else After(Do(m, acts[0]), acts[1..])
  }

  lemma {:induction false} AfterOk(m: Sem, acts: seq<Act>)
    requires SemOk(m) && Legal(m, acts)
    ensures SemOk(After(m, acts)) && After(m, acts).supply == m.supply + Posts(acts)
    ensures After(m, acts).passed == m.passed + Successes(m, acts)
    decreases |acts|
  {
    if acts != [] {
      DoOk(m, acts[0]);
      AfterOk(Do(m, acts[0]), acts[1..]);
    }
  }

  function Posts(acts: seq<Act>): nat {
    if acts == [] then 0 else (if acts[0].Post? then 1 else 0) + Posts(acts[1..])
  }

  /** The number of waits that return success in a run. */
  function Successes(m: Sem, acts: seq<Act>): nat
    requires Legal(m, acts)
    decreases |acts|
  {
    if acts == [] then 0
    else (if Returned(m, acts[0]) == Some(NO_ERROR) then 1 else 0) + Successes(Do(m, acts[0]), acts[1..])
  }

  /** In every interleaving the waits that return success, counting those woken and not yet run, never outnumber the
      initial value plus the posts; the count is the units left over less the queued waiters and less the timed-out
      waiters that have yet to back out. */
  lemma Bounded(value: nat, acts: seq<Act>)
    requires Legal(Fresh(value), acts)
    ensures var m, n := After(Fresh(value), acts), Successes(Fresh(value), acts);
            && n + |Granted(m.w)| <= value + Posts(acts)
            && m.count == value + Posts(acts) - n - |Granted(m.w)| - |m.w.list| - |Late(m.w)|
  {
    AfterOk(Fresh(value), acts);
  }

  /** When a wait succeeds at once, fails at once, or queues, last in line. */
  lemma WaitLaw(m: Sem, t: nat, timeout: nat)
    requires SemOk(m) && Can(m, Wait(t, timeout))
    ensures var m', r := Do(m, Wait(t, timeout)), Returned(m, Wait(t, timeout));
            && (r == Some(NO_ERROR) <==> Unclaimed(m) > |m.w.list| + |Late(m.w)|)
            && (r == Some(NO_ERROR) ==> Unclaimed(m') == Unclaimed(m) - 1 && m'.w == m.w)
            && (r == None ==> && timeout != 0 && m'.w.list == m.w.list + [t] && Unclaimed(m') == Unclaimed(m)
                              && (t in m'.w.timed <==> timeout != INFINITE_TIME))
            && (r.Some? && r != Some(NO_ERROR) ==> r == Some(ERR_TIMED_OUT) && timeout == 0 && m' == m)
  {
    JoinOk(m.w, t, timeout);
  }

  lemma TryWaitLaw(m: Sem, t: nat)
    requires SemOk(m) && Can(m, TryWait(t))
    ensures var m', r := Do(m, TryWait(t)), Returned(m, TryWait(t));
            && (r == Some(NO_ERROR) <==> Unclaimed(m) > |m.w.list| + |Late(m.w)|)
            && m'.w == m.w && Unclaimed(m') == Unclaimed(m) - (if r == Some(NO_ERROR) then 1 else 0)
            && (r != Some(NO_ERROR) ==> r == Some(ERR_NOT_READY))
  {
  }

  /** A post that wakes a thread wakes the first in line, and its unit is that thread's. */
  lemma PostLaw(m: Sem)
    requires SemOk(m)
    ensures var m' := Do(m, Post);
            if m.w.list != [] && Unclaimed(m) < |m.w.list| + |Late(m.w)|
            then && m'.w.list == m.w.list[1..] && Granted(m'.w) == Granted(m.w) + {m.w.list[0]}
                 && Unclaimed(m') == Unclaimed(m) && Late(m'.w) == Late(m.w)
            else m'.w == m.w && Unclaimed(m') == Unclaimed(m) + 1
  {
    if m.w.list != [] {
      GrantOk(m.w);
    }
  }

  /** A timeout takes a queued thread out of the line and fails it, and comes too late for one that was woken. */
  lemma TimeoutLaw(m: Sem, t: nat)
    requires SemOk(m) && Can(m, Timeout(t))
    ensures var m' := Do(m, Timeout(t));
            && t !in m'.w.list && m'.count == m.count && Granted(m'.w) == Granted(m.w) && Unclaimed(m') == Unclaimed(m)
            && (forall u :: u in m.w.list && u != t ==> u in m'.w.list)
            && (if t in m.w.list then t in m'.w.woken && m'.w.woken[t] == ERR_TIMED_OUT else m' == m)
  {
    ExpireOk(m.w, t);
    if t in m.w.list {
      RemoveKeeps(m.w.list, IndexOf(m.w.list, t), t);
    }
  }

  /** A woken thread takes the unit that was handed to it; one that timed out backs out. */
  lemma WakeupLaw(m: Sem, t: nat)
    requires SemOk(m) && Can(m, Wakeup(t))
    ensures var m', r := Do(m, Wakeup(t)), Returned(m, Wakeup(t));
            && !Inside(m'.w, t) && m'.w.list == m.w.list && Unclaimed(m') == Unclaimed(m)
            && (r == Some(NO_ERROR) <==> t in Granted(m.w)) && (r != Some(NO_ERROR) ==> r == Some(ERR_TIMED_OUT))
            && m'.count == m.count + if r == Some(NO_ERROR) then 0 else 1
  {
    LeavesOk(m.w, t);
  }

  /** Nobody sleeps while a unit is there for the taking. */
  predicate Served(m: Sem) {
    m.w.list != [] ==> Unclaimed(m) == 0
  }

  /** A wait that queues although a unit is unclaimed: the count is low only because a timed-out waiter has not
      run yet. */
  predicate Strands(m: Sem, a: Act) {
    a.Wait? && a.timeout != 0 && m.count <= 0 && Unclaimed(m) > 0
  }

  /** That wait is the one way to leave a thread asleep beside an unclaimed unit. */
  lemma ServedStep(m: Sem, a: Act)
    requires SemOk(m) && Served(m) && Can(m, a)
    ensures Served(Do(m, a)) <==> !Strands(m, a)
  {
    match a
    case Post =>
      if m.w.list != [] {
        GrantOk(m.w);
      }
    case Wait(t, timeout) =>
      if m.count <= 0 {
        JoinOk(m.w, t, timeout);
      }
    case TryWait(t) =>
    case Timeout(t) => ExpireOk(m.w, t);
    case Wakeup(t) => LeavesOk(m.w, t);
  }

  ghost predicate AlwaysServed(m: Sem, acts: seq<Act>)
    requires Legal(m, acts)
    decreases |acts|
  {
    Served(m) && (acts != [] ==> AlwaysServed(Do(m, acts[0]), acts[1..]))
  }

  ghost predicate NeverStrands(m: Sem, acts: seq<Act>)
    requires Legal(m, acts)
    decreases |acts|
  {
    acts != [] ==> !Strands(m, acts[0]) && NeverStrands(Do(m, acts[0]), acts[1..])
  }

  /** A run never leaves a thread asleep beside an unclaimed unit if and only if no wait in it queues beside one. */
  lemma {:induction false} ServedRun(m: Sem, acts: seq<Act>)
    requires SemOk(m) && Served(m) && Legal(m, acts)
    ensures AlwaysServed(m, acts) <==> NeverStrands(m, acts)
    decreases |acts|
  {
    if acts != [] {
      DoOk(m, acts[0]);
      ServedStep(m, acts[0]);
      if Served(Do(m, acts[0])) {
        ServedRun(Do(m, acts[0]), acts[1..]);
      }
    }
  }

  predicate Patient(acts: seq<Act>) {
    forall i :: 0 <= i < |acts| && acts[i].Wait? ==> acts[i].timeout == 0 || acts[i].timeout == INFINITE_TIME
  }

  /** With zero and infinite timeouts only, no thread ever sleeps beside an unclaimed unit. */
  lemma {:induction false} PatientServed(m: Sem, acts: seq<Act>)
    requires SemOk(m) && Served(m) && m.w.timed == {} && Legal(m, acts) && Patient(acts)
    ensures AlwaysServed(m, acts)
    decreases |acts|
  {
    if acts != [] {
      assert Late(m.w) == {};
      DoOk(m, acts[0]);
      ServedStep(m, acts[0]);
      assert Patient(acts[1..]);
      PatientServed(Do(m, acts[0]), acts[1..]);
    }
  }

  /** A post wakes a thread exactly when the sleepers and the late ones outnumber the unclaimed units. */
  lemma PostWakes(m: Sem)
    requires SemOk(m)
    ensures |Granted(Do(m, Post).w)| == |Granted(m.w)| + 1 <==>
              m.w.list != [] && Unclaimed(m) < |m.w.list| + |Late(m.w)|
  {
    if m.w.list != [] {
      GrantOk(m.w);
    }
  }

  /** Thread 1's wait times out, a post finds nobody to wake, and thread 2 waits before thread 1 has run: it
      sleeps beside the unit, and another post does not wake it. */
  lemma StrandedExample()
    ensures var acts := [Wait(1, 10), Timeout(1), Post, Wait(2, INFINITE_TIME), Wakeup(1), Post];
            && Legal(Fresh(0), acts)
            && var m := After(Fresh(0), acts);
            && m.w.list == [2] && Unclaimed(m) == 2
  {
    var late := map[1 := ERR_TIMED_OUT];
    var m1 := Sem(-1, Waiters([1], map[], {1}), 0, 0);
    var m2 := Sem(-1, Waiters([], late, {1}), 0, 0);
    var m3 := Sem(0, Waiters([], late, {1}), 1, 0);
    var rest := [Wait(2, INFINITE_TIME), Wakeup(1), Post];
    StrandedEnd(m3, late);
    Before(m2, Post, m3, rest);
    Before(m1, Timeout(1), m2, [Post] + rest);
    Before(Fresh(0), Wait(1, 10), m1, [Timeout(1)] + ([Post] + rest));
    assert [Wait(1, 10)] + ([Timeout(1)] + ([Post] + rest))
        == [Wait(1, 10), Timeout(1), Post, Wait(2, INFINITE_TIME), Wakeup(1), Post];
  }

  /** The same from the post on. */
  lemma StrandedEnd(m3: Sem, late: map<nat, int>)
    requires late == map[1 := ERR_TIMED_OUT] && m3 == Sem(0, Waiters([], late, {1}), 1, 0)
    ensures var acts := [Wait(2, INFINITE_TIME), Wakeup(1), Post];
            Legal(m3, acts) && After(m3, acts).w.list == [2] && Unclaimed(After(m3, acts)) == 2
  {
    var m4 := Sem(-1, Waiters([2], late, {1}), 1, 0);
    var m5 := Sem(0, Waiters([2], map[], {1}), 1, 0);
    var m6 := Sem(1, Waiters([2], map[], {1}), 2, 0);
    Before(m5, Post, m6, []);
    Before(m4, Wakeup(1), m5, [Post]);
    Before(m3, Wait(2, INFINITE_TIME), m4, [Wakeup(1), Post]);
    assert Granted(m6.w) == {};
  }

  lemma Before(m: Sem, a: Act, m': Sem, acts: seq<Act>)
    requires Can(m, a) && Do(m, a) == m' && Legal(m', acts)
    ensures Legal(m, [a] + acts) && After(m, [a] + acts) == After(m', acts)
  {
    assert ([a] + acts)[1..] == acts;
  }

  /** semaphore_t, over the scheduler `k` and its wait queue `q`. */
  class Semaphore {
    const k: Scheduler
    const q: nat
    var count: int
    ghost var inside: set<nat>
    ghost var timed: set<nat>
    ghost var supply: nat
    ghost var passed: nat

    ghost predicate Ready()
      reads this, k
    {
      k.Valid() && Confined(k.View(), q, inside)
    }

    ghost function View(): Sem
      reads this, k
      requires Ready()
    {
      Sem(count, Seen(k.View(), q, inside, timed), supply, passed)
    }

    ghost predicate Valid()
      reads this, k
    {
      Ready() && SemOk(View())
    }

    /** sem_init */
    constructor (k: Scheduler, q: nat, value: nat)
      requires k.Valid() && q in k.waits && k.waits[q].list == []
      ensures Valid() && this.k == k && this.q == q && View() == Fresh(value)
    {
      this.k, this.q := k, q;
      count, inside, timed, supply, passed := value, {}, {}, value, 0;
    }

    /** sem_post; the result is the number of threads woken. */
    method SemPost(c: nat, resched: bool) returns (n: nat)
      requires Valid() && Enabled(k.View(), WakeOne(c, q, resched, NO_ERROR))
      modifies this, k
      ensures Valid() && View() == Do(old(View()), Post)
      ensures n == if old(count) < 0 && old(k.waits)[q].list != [] then 1 else 0
      ensures k.View() == if n == 0 then old(k.View()) else Next(old(k.View()), WakeOne(c, q, resched, NO_ERROR))
      ensures supply == old(supply) + 1 && passed == old(passed) && count == old(count) + 1
    {
      DoOk(View(), Post);
      n := 0;
      count := count + 1;
      supply := supply + 1;
      if count <= 0 {
        n := Wake(c, resched);
        return;
      }
    }

    /** Wake the first waiter, if there is one. */
    method Wake(c: nat, resched: bool) returns (n: nat)
      requires Ready() && Enabled(k.View(), WakeOne(c, q, resched, NO_ERROR))
      modifies k
      ensures Ready() && View() == old(View()).(w := Grant(old(View()).w))
      ensures n == if old(k.waits)[q].list != [] then 1 else 0
      ensures k.View() == if n == 0 then old(k.View()) else Next(old(k.View()), WakeOne(c, q, resched, NO_ERROR))
    {
      ghost var s := k.View();
      WakeOneSeen(s, c, q, resched, inside, timed);
      WakeFirstFate(s, c, q, resched, NO_ERROR, 0);
      n := k.WaitQueueWakeOne(c, q, resched, NO_ERROR);
    }

    /** sem_timedwait by the current thread of `c` (and sem_wait, with INFINITE_TIME), up to its return or to its
        going to sleep (None). */
    method SemTimedWait(c: nat, timeout: nat) returns (r: Option<int>)
      requires Valid() && Enabled(k.View(), Block(c, q)) && Can(View(), Wait(k.current[c], timeout))
      modifies this, k
      ensures Valid() && View() == Do(old(View()), Wait(old(k.current[c]), timeout))
      ensures k.View() == if r == None then Next(old(k.View()), Block(c, q)) else old(k.View())
      ensures r == if old(count) > 0 then Some(NO_ERROR) else if timeout == 0 then Some(ERR_TIMED_OUT) else None
      ensures r == Returned(old(View()), Wait(old(k.current[c]), timeout))
      ensures passed == old(passed) + (if r == Some(NO_ERROR) then 1 else 0) && supply == old(supply)
      ensures count == old(count) - if r == Some(ERR_TIMED_OUT) then 0 else 1
    {
      DoOk(View(), Wait(k.current[c], timeout));
      count := count - 1;
      if count < 0 {
        r := Sleep(c, timeout);
        if r.Some? && r.value < NO_ERROR {
          if r.value == ERR_TIMED_OUT {
            count := count + 1;
          }
        }
        return;
      }
      passed := passed + 1;
      return Some(NO_ERROR);
    }

    /** Block the current thread on the semaphore's queue, unless its timeout is zero. */
    method Sleep(c: nat, timeout: nat) returns (r: Option<int>)
      requires Ready() && Enabled(k.View(), Block(c, q)) && k.current[c] !in inside
      modifies k, this`inside, this`timed
      ensures Ready()
      ensures if timeout == 0 then r == Some(ERR_TIMED_OUT) && k.View() == old(k.View()) && View() == old(View())
              else && r == None && k.View() == Next(old(k.View()), Block(c, q))
                   && View() == old(View()).(w := Join(old(View()).w, old(k.current[c]), timeout))
    {
      ghost var s, w, t := k.View(), View().w, k.current[c];
      BlockSeen(s, c, q, inside, timed, timeout);
      r := k.WaitQueueBlock(c, q, timeout);
      if r == None {
        inside := inside + {t};
        timed := Join(w, t, timeout).timed;
      }
    }

    /** The rest of sem_timedwait, when the thread runs again. */
    method WaitWoken(c: nat) returns (r: int)
      requires Valid() && OnCpu(k.View(), c) && Can(View(), Wakeup(k.current[c]))
      modifies this
      ensures Valid() && View() == Do(old(View()), Wakeup(k.current[c]))
      ensures r == old(View()).w.woken[k.current[c]] && Some(r) == Returned(old(View()), Wakeup(k.current[c]))
      ensures passed == old(passed) + (if r == NO_ERROR then 1 else 0) && supply == old(supply)
    {
      ghost var m := View();
      var t := k.current[c];
      DoOk(m, Wakeup(t));
      inside := inside - {t};
      r := k.threads[t].blockRet;
      assert Here(k.View(), q, t) && Seen(k.View(), q, inside, timed) == Leaves(m.w, t);
      if r < NO_ERROR {
        if r == ERR_TIMED_OUT {
          count := count + 1;
        }
      } else {
        passed := passed + 1;
      }
    }

    /** sem_trywait */
    method SemTryWait(c: nat) returns (r: int)
      requires Valid() && OnCpu(k.View(), c) && Can(View(), TryWait(k.current[c]))
      modifies this
      ensures Valid() && View() == Do(old(View()), TryWait(k.current[c]))
      ensures r == if old(count) <= 0 then ERR_NOT_READY else NO_ERROR
      ensures Some(r) == Returned(old(View()), TryWait(k.current[c]))
      ensures passed == old(passed) + (if r == NO_ERROR then 1 else 0) && supply == old(supply)
      ensures count == old(count) - if r == NO_ERROR then 1 else 0
    {
      DoOk(View(), TryWait(k.current[c]));
      r := NO_ERROR;
      if count <= 0 {
        r := ERR_NOT_READY;
      } else {
        count := count - 1;
        passed := passed + 1;
      }
    }

    /** wait_queue_timeout_handler for a thread in a timed wait. */
    method TimeoutHandler(t: nat) returns (resched: bool)
      requires Valid() && Can(View(), Timeout(t))
      modifies k
      ensures Valid() && View() == Do(old(View()), Timeout(t))
      ensures resched <==> t in old(View()).w.list
    {
      ghost var s, m := k.View(), View();
      DoOk(m, Timeout(t));
      assert Here(s, q, t);
      TimeoutSeen(s, t, q, inside, timed);
      EvictFate(s, t, ERR_TIMED_OUT, t);
      if t in k.waits[q].list {
        WaiterFate(s, q, t);
      }
      var st := k.UnblockFromWaitQueue(t, ERR_TIMED_OUT);
      return st >= NO_ERROR;
    }
  }
}
