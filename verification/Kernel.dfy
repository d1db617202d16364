/** The routines of kernel/thread.c that change the run queues, the wait queues and the current threads.
    Each of them makes exactly the step of `Sched.Next` named after it. */
module Kernel {
  import opened Arith
  import opened Sched

  /** Skipping queues without an allowed thread does not change the pick. */
  lemma {:induction false} PickSkip(s: Sched, c: nat, n: nat, m: nat)
    requires n <= m <= |s.queues|
    requires forall r :: n <= r < m ==> FirstAllowed(s, s.queues[r], c).None?
    ensures Pick(s, c, m) == Pick(s, c, n)
  {
    if n < m {
      PickSkip(s, c, n, m - 1);
    }
  }

  /** `31 - clz(bits)`: the position of the highest set bit. */
  method HighestBit(bits: set<nat>) returns (p: nat)
    requires bits != {} && forall b :: b in bits ==> b < NUM_PRIORITIES
    ensures p in bits && forall b :: b in bits ==> b <= p
  {
    ghost var some :| some in bits;
    p := NUM_PRIORITIES - 1;
    while p !in bits
      invariant some <= p < NUM_PRIORITIES && forall b :: b in bits ==> b <= p
      decreases p
    {
      p := p - 1;
    }
  }

  /** The threads after a switch from `prev` to another thread. */
  ghost function Switched(threads: map<nat, Thread>, prev: nat, next: nat, c: nat): map<nat, Thread>
    requires prev in threads && next in threads
  {
    var th := threads[next];
    threads[prev := threads[prev].(cpu := -1)]
           [next := th.(state := Running, quantum := if th.quantum <= 0 then FULL_QUANTUM else th.quantum, cpu := c)]
  }

  lemma SwitchParts(s: Sched, c: nat, s1: Sched, next: nat)
    requires Inv(s, Some(c), {}) && c < |s.current| && (s1, next) == Top(s, c)
    ensures s.current[c] in s.threads && next in s.threads && s1.threads == s.threads && s1.current == s.current
    ensures SwitchFrom(s, c)
         == if next == s.current[c] then s1.(threads := s1.threads[next := s1.threads[next].(state := Running)])
            else s1.(threads := Switched(s1.threads, s.current[c], next, c), current := s.current[c := next])
  {
    TopInv(s, c);
    assert CpuOk(s, c, Some(c));
    var prev := s.current[c];
    if next != prev {
      assert Switch(s, c).threads == Switched(s1.threads, prev, next, c);
    }
  }

  class Scheduler {
    var threads: map<nat, Thread>
    var queues: seq<seq<nat>>
    var bitmap: set<nat>
    var waits: map<nat, WaitQueue>
    var current: seq<nat>
    const idle: seq<nat>

    ghost function View(): Sched
      reads this
    {
      Sched(threads, queues, bitmap, waits, current, idle)
    }

    ghost predicate Valid()
      reads this
    {
      Steady(View())
    }

    /** `n` CPUs, each running its own idle thread; no other thread yet. */
    constructor (n: nat)
      ensures Valid() && current == idle && |idle| == n && waits == map[]
    {
      var boot := Boot(n);
      BootSteady(n);
      threads, queues, bitmap, waits := boot.threads, boot.queues, boot.bitmap, boot.waits;
      current, idle := boot.current, boot.idle;
    }

    method InsertInRunQueue(t: nat, head: bool)
      requires t in threads && threads[t].priority < |queues|
      modifies this`queues, this`bitmap
      ensures View() == Enqueue(old(View()), t, head)
    {
      var p := threads[t].priority;
      queues := queues[p := if head then [t] + queues[p] else queues[p] + [t]];
      bitmap := bitmap + {p};
    }

    /** get_top_thread: a scan of the queues named by the bitmap, from the highest bit down. */
    method GetTopThread(c: nat) returns (t: nat)
      requires Inv(View(), Some(c), {}) && c < |current|
      modifies this`queues, this`bitmap
      ensures (View(), t) == Top(old(View()), c)
    {
      ghost var s := View();
      var local := bitmap;
      ghost var n: nat := NUM_PRIORITIES;
      BitsInRange(s, Some(c));
      while local != {}
        invariant n <= NUM_PRIORITIES == |s.queues| && View() == s
        invariant forall b :: b in local <==> b in bitmap && b < n
        invariant forall r :: n <= r < NUM_PRIORITIES ==> FirstAllowed(s, s.queues[r], c).None?
        decreases |local|
      {
        var p := HighestBit(local);
        assert QueueOk(s, p, {});
        var i := ScanQueue(p, c);
        EmptyBetween(s, c, Some(c), p, n);
        if i < |queues[p]| {
          PickSkip(s, c, p + 1, NUM_PRIORITIES);
          t := queues[p][i];
          queues := queues[p := queues[p][..i] + queues[p][i + 1..]];
          if queues[p] == [] {
            bitmap := bitmap - {p};
          }
          return;
        }
        local := local - {p};
        n := p;
      }
      EmptyBetween(s, c, Some(c), -1, n);
      PickSkip(s, c, 0, NUM_PRIORITIES);
      t := idle[c];
    }

    /** thread_resched */
    method Resched(c: nat)
      requires Inv(View(), Some(c), {}) && c < |current|
      modifies this
      ensures Valid() && View() == SwitchFrom(old(View()), c)
    {
      ghost var s := View();
      SwitchInv(s, c);
      var next := GetTopThread(c);
      ghost var s1 := View();
      SwitchParts(s, c, s1, next);
      threads := threads[next := threads[next].(state := Running)];
      var prev := current[c];
      if next == prev {
        return;
      }
      ContextSwitch(prev, next, c, s1.threads);
      current := current[c := next];
    }

    /** The part of thread_resched for another thread: refill its quantum and move the CPU. */
    method ContextSwitch(prev: nat, next: nat, c: nat, ghost was: map<nat, Thread>)
      requires prev in was && next in was && prev != next && threads == was[next := was[next].(state := Running)]
      modifies this`threads
      ensures threads == Switched(was, prev, next, c)
    {
      if threads[next].quantum <= 0 {
        threads := threads[next := threads[next].(quantum := FULL_QUANTUM)];
      }
      threads := threads[prev := threads[prev].(cpu := -1)];
      threads := threads[next := threads[next].(cpu := c)];
    }

    /** thread_yield */
    method ThreadYield(c: nat)
      requires Valid() && Enabled(View(), Yield(c))
      modifies this
      ensures Valid() && View() == Next(old(View()), Yield(c))
    {
      ghost var s, after := View(), Next(View(), Yield(c));
      var t := current[c];
      assert ThreadOk(s, t, None, {});
      CurrentFacts(s, c, threads[t].(state := Ready, quantum := 0), false);
      threads := threads[t := threads[t].(state := Ready, quantum := 0)];
      if !threads[t].isIdle {
        InsertInRunQueue(t, false);
      }
      Resched(c);
    }

    /** thread_preempt */
    method ThreadPreempt(c: nat)
      requires Valid() && Enabled(View(), Preempt(c))
      modifies this
      ensures Valid() && View() == Next(old(View()), Preempt(c))
    {
      ghost var s, after := View(), Next(View(), Preempt(c));
      var t := current[c];
      assert ThreadOk(s, t, None, {});
      CurrentFacts(s, c, threads[t].(state := Ready), threads[t].quantum > 0);
      threads := threads[t := threads[t].(state := Ready)];
      if !threads[t].isIdle {
        if threads[t].quantum > 0 {
          InsertInRunQueue(t, true);
        } else {
          InsertInRunQueue(t, false);
        }
      }
      Resched(c);
    }

    /** thread_set_priority */
    method ThreadSetPriority(c: nat, priority: int)
      requires Valid() && Enabled(View(), SetPriority(c, priority))
      modifies this
      ensures Valid() && View() == Next(old(View()), SetPriority(c, priority))
    {
      ghost var s, after := View(), Next(View(), SetPriority(c, priority));
      var t, p := current[c], priority;
      if p <= IDLE_PRIORITY {
        p := IDLE_PRIORITY + 1;
      }
      if p > HIGHEST_PRIORITY {
        p := HIGHEST_PRIORITY;
      }
      CurrentFacts(s, c, threads[t].(state := Ready, priority := p), true);
      threads := threads[t := threads[t].(priority := p, state := Ready)];
      InsertInRunQueue(t, true);
      Resched(c);
    }

    /** thread_create_etc, as far as the scheduler sees it. */
    method ThreadCreate(t: nat, info: Thread)
      requires Valid() && Enabled(View(), Create(t, info))
      modifies this
      ensures Valid() && View() == Next(old(View()), Create(t, info))
    {
      ghost var after := Next(View(), Create(t, info));
      threads := threads[t := info];
    }

    /** thread_resume, up to the yield its caller makes. */
    method ThreadResume(t: nat)
      requires Valid() && Enabled(View(), Resume(t))
      modifies this
      ensures Valid() && View() == Next(old(View()), Resume(t))
    {
      ghost var s, after := View(), Next(View(), Resume(t));
      if threads[t].state == Suspended {
        assert ThreadOk(s, t, None, {});
        threads := threads[t := threads[t].(state := Ready)];
        InsertInRunQueue(t, true);
      }
    }

    /** thread_sleep, up to the switch; its timer ends in `SleepHandler`. */
    method ThreadSleep(c: nat)
      requires Valid() && Enabled(View(), Sleep(c))
      modifies this
      ensures Valid() && View() == Next(old(View()), Sleep(c))
    {
      ghost var s, after := View(), Next(View(), Sleep(c));
      var t := current[c];
      LeaveFacts(s, c, threads[t].(state := Sleeping));
      threads := threads[t := threads[t].(state := Sleeping)];
      Resched(c);
    }

    /** thread_sleep_handler */
    method SleepHandler(t: nat)
      requires Valid() && Enabled(View(), SleepDone(t))
      modifies this
      ensures Valid() && View() == Next(old(View()), SleepDone(t))
    {
      ghost var s, after := View(), Next(View(), SleepDone(t));
      assert ThreadOk(s, t, None, {});
      threads := threads[t := threads[t].(state := Ready)];
      InsertInRunQueue(t, true);
    }

    /** thread_timer_tick: a thread that is neither idle nor real-time uses up quantum; the result asks for a
        reschedule. */
    method TimerTick(c: nat) returns (resched: bool)
      requires Valid() && Enabled(View(), Tick(c))
      modifies this
      ensures Valid() && View() == Next(old(View()), Tick(c))
      ensures var th := old(threads)[current[c]]; resched <==> !th.isIdle && !th.realTime && th.quantum <= 1
    {
      ghost var after := Next(View(), Tick(c));
      var t := current[c];
      if threads[t].isIdle || threads[t].realTime {
        return false;
      }
      threads := threads[t := threads[t].(quantum := threads[t].quantum - 1)];
      return threads[t].quantum <= 0;
    }

    /** thread_set_real_time */
    method ThreadSetRealTime(t: nat)
      requires Valid() && Enabled(View(), SetRealTime(t))
      modifies this
      ensures Valid() && View() == Next(old(View()), SetRealTime(t))
    {
      ghost var after := Next(View(), SetRealTime(t));
      threads := threads[t := threads[t].(realTime := true)];
    }

    /** wait_queue_init */
    method WaitQueueInit(q: nat)
      requires Valid() && Enabled(View(), NewQueue(q))
      modifies this
      ensures Valid() && View() == Next(old(View()), NewQueue(q))
    {
      ghost var after := Next(View(), NewQueue(q));
      waits := waits[q := WaitQueue([], 0)];
    }

    /** wait_queue_block, up to the switch.  A zero timeout returns at once; otherwise the result is the
        thread's `blockRet` when it runs again. */
    method WaitQueueBlock(c: nat, q: nat, timeout: nat) returns (r: Option<int>)
      requires Valid() && Enabled(View(), Block(c, q))
      modifies this
      ensures Valid()
      ensures if timeout == 0 then r == Some(ERR_TIMED_OUT) && View() == old(View())
              else r == None && View() == Next(old(View()), Block(c, q))
    {
      if timeout == 0 {
        return Some(ERR_TIMED_OUT);
      }
      ghost var s, after := View(), Next(View(), Block(c, q));
      var t := current[c];
      BlockFacts(s, c, q);
      waits := waits[q := WaitQueue(waits[q].list + [t], waits[q].count + 1)];
      threads := threads[t := threads[t].(state := Blocked, blockedOn := Some(q), blockRet := NO_ERROR)];
      Resched(c);
      return None;
    }

    /** Take the first waiter off queue `q` and mark it ready. */
    method ReleaseHead(q: nat, err: int, ghost mid: Option<nat>) returns (t: nat)
      requires Inv(View(), mid, {}) && q in waits && waits[q].list != []
      modifies this`threads, this`waits
      ensures t == old(waits)[q].list[0] && View() == Release(old(View()), q, 0, err, mid)
    {
      ghost var s := View();
      var l := waits[q].list;
      t := l[0];
      assert l[..0] + l[1..] == l[1..] && BlockedAt(s, t, q) by {
        assert WaitOk(s, q, {});
      }
      waits := waits[q := WaitQueue(l[1..], waits[q].count - 1)];
      threads := threads[t := threads[t].(state := Ready, blockRet := err, blockedOn := None)];
    }

    /** wait_queue_wake_one */
    method WaitQueueWakeOne(c: nat, q: nat, resched: bool, err: int) returns (n: nat)
      requires Valid() && Enabled(View(), WakeOne(c, q, resched, err))
      modifies this
      ensures Valid() && View() == Next(old(View()), WakeOne(c, q, resched, err))
      ensures n == if old(waits)[q].list == [] then 0 else 1
    {
      ghost var s, after := View(), Next(View(), WakeOne(c, q, resched, err));
      if waits[q].list == [] {
        return 0;
      }
      WakeFacts(s, c, q, err, resched);
      var t := ReleaseHead(q, err, None);
      var cur := current[c];
      if resched {
        threads := threads[cur := threads[cur].(state := Ready)];
        InsertInRunQueue(cur, true);
      }
      InsertInRunQueue(t, true);
      if resched {
        Resched(c);
      }
      return 1;
    }

    /** The loop of wait_queue_wake_all. */
    method WakeLoop(q: nat, err: int, ghost mid: Option<nat>) returns (n: nat)
      requires Inv(View(), mid, {}) && q in waits
      modifies this`threads, this`waits, this`queues, this`bitmap
      ensures View() == WakeEach(old(View()), q, err, mid) && n == |old(waits)[q].list|
    {
      n := 0;
      while waits[q].list != []
        invariant Inv(View(), mid, {}) && q in waits && n + |waits[q].list| == |old(waits)[q].list|
        invariant current == old(current)
        invariant WakeEach(View(), q, err, mid) == WakeEach(old(View()), q, err, mid)
        decreases |waits[q].list|
      {
        ghost var s := View();
        var t := ReleaseHead(q, err, mid);
        EnqueueInv(View(), t, true, mid, {t});
        assert {t} - {t} == {};
        InsertInRunQueue(t, true);
        n := n + 1;
      }
    }

    /** Put the current thread, which is not idle, at the head of its run queue. */
    method StepAside(c: nat)
      requires Valid() && OnCpu(View(), c) && !CurrentIdle(View(), c)
      modifies this`threads, this`queues, this`bitmap
      ensures Inv(View(), Some(c), {})
      ensures var s, t := old(View()), current[c];
              && t in s.threads && s.threads[t].priority < |s.queues|
              && View() == Enqueue(SetThread(s, t, s.threads[t].(state := Ready)), t, true)
    {
      ghost var s := View();
      var cur := current[c];
      assert ThreadOk(s, cur, None, {});
      CurrentFacts(s, c, threads[cur].(state := Ready), true);
      threads := threads[cur := threads[cur].(state := Ready)];
      InsertInRunQueue(cur, true);
    }

    /** wait_queue_wake_all */
    method WaitQueueWakeAll(c: nat, q: nat, resched: bool, err: int) returns (n: nat)
      requires Valid() && Enabled(View(), WakeAll(c, q, resched, err))
      modifies this
      ensures Valid() && View() == Next(old(View()), WakeAll(c, q, resched, err))
      ensures n == |old(waits)[q].list|
    {
      ghost var s, after := View(), Next(View(), WakeAll(c, q, resched, err));
      assert WaitOk(s, q, {});
      if resched && waits[q].count > 0 {
        StepAside(c);
        n := WakeLoop(q, err, Some(c));
        Resched(c);
        return;
      } else {
        n := WakeLoop(q, err, None);
        return;
      }
    }

    /** thread_exit, up to the switch. */
    method ThreadExit(c: nat)
      requires Valid() && Enabled(View(), Exit(c))
      modifies this
      ensures Valid() && View() == Next(old(View()), Exit(c))
    {
      ghost var s, after := View(), Next(View(), Exit(c));
      var t := current[c];
      LeaveFacts(s, c, threads[t].(state := Death));
      threads := threads[t := threads[t].(state := Death)];
      if !threads[t].detached {
        var n := WakeLoop(threads[t].joinq, NO_ERROR, Some(c));
      }
      Resched(c);
    }

    /** thread_unblock_from_wait_queue */
    method UnblockFromWaitQueue(t: nat, err: int) returns (st: int)
      requires Valid() && Enabled(View(), Unblock(t, err))
      modifies this
      ensures Valid() && View() == Next(old(View()), Unblock(t, err))
      ensures st == if old(threads)[t].state == Blocked then NO_ERROR else ERR_NOT_BLOCKED
    {
      ghost var s, after := View(), Next(View(), Unblock(t, err));
      if threads[t].state != Blocked {
        return ERR_NOT_BLOCKED;
      }
      assert ThreadOk(s, t, None, {});
      var q := threads[t].blockedOn.value;
      var l := waits[q].list;
      var i := IndexOf(l, t);
      waits := waits[q := WaitQueue(l[..i] + l[i + 1..], waits[q].count - 1)];
      threads := threads[t := threads[t].(blockedOn := None, state := Ready, blockRet := err)];
      InsertInRunQueue(t, true);
      return NO_ERROR;
    }

    /** The walk over one run queue: the first thread that may run on `c`, or the length. */
    method ScanQueue(p: nat, c: nat) returns (i: nat)
      requires p < |queues| && QueueOk(View(), p, {})
      ensures i <= |queues[p]|
      ensures FirstAllowed(View(), queues[p], c) == if i < |queues[p]| then Some(i) else None
    {
      ghost var s := View();
      assert forall j :: 0 <= j < |queues[p]| ==> ReadyAt(s, queues[p][j], p);
      i := 0;
      while i < |queues[p]| && !(threads[queues[p][i]].pinned < 0 || threads[queues[p][i]].pinned == c)
        invariant i <= |queues[p]|
        invariant forall j :: 0 <= j < i ==> !MayRun(s, queues[p][j], c)
      {
        i := i + 1;
      }
    }
  }

  lemma BitsInRange(s: Sched, mid: Option<nat>)
    requires Inv(s, mid, {})
    ensures forall b :: b in s.bitmap ==> b < NUM_PRIORITIES
  {
    forall b | b in s.bitmap ensures b < NUM_PRIORITIES {
      assert QueueOk(s, b, {});
    }
  }

  /** A clear bit means an empty queue, and an empty queue has no thread to offer. */
  lemma EmptyBetween(s: Sched, c: nat, mid: Option<nat>, p: int, n: nat)
    requires Inv(s, mid, {}) && -1 <= p && n <= NUM_PRIORITIES
    requires forall b :: p < b < n ==> b !in s.bitmap
    ensures forall r :: p < r < n ==> FirstAllowed(s, s.queues[r], c).None?
  {
    forall r | p < r < n ensures FirstAllowed(s, s.queues[r], c).None? {
      assert QueueOk(s, r, {});
    }
  }

  /** The state Requeue switches from. */
  ghost function Requeued(s: Sched, c: nat, th: Thread, head: bool): Sched
    requires OnCpu(s, c) && th.priority < |s.queues|
  {
    var s1 := SetThread(s, s.current[c], th);
    if th.isIdle then s1 else Enqueue(s1, s.current[c], head)
  }

  lemma CurrentFacts(s: Sched, c: nat, th: Thread, head: bool)
    requires Steady(s) && OnCpu(s, c) && th.state == Ready && th.priority < NUM_PRIORITIES
    requires th == s.threads[s.current[c]].(state := Ready, quantum := th.quantum, priority := th.priority)
    ensures Inv(Requeued(s, c, th, head), Some(c), {})
    ensures Requeue(s, c, th, head) == SwitchFrom(Requeued(s, c, th, head), c)
  {
    var t := s.current[c];
    assert CpuOk(s, c, None);
    assert ThreadOk(s, t, None, {});
    TakeOff(s, c, th, {});
    assert {} + {t} == {t} && {t} - {t} == {};
    var s1 := SetThread(s, t, th);
    if th.isIdle {
      Settle(s1, t, Some(c), {t});
    } else {
      EnqueueInv(s1, t, head, Some(c), {t});
    }
  }

  lemma LeaveFacts(s: Sched, c: nat, th: Thread)
    requires Steady(s) && OnCpu(s, c) && !CurrentIdle(s, c) && th.state in {Sleeping, Death}
    requires th == s.threads[s.current[c]].(state := th.state)
    ensures Inv(SetThread(s, s.current[c], th), Some(c), {})
  {
    var t := s.current[c];
    assert CpuOk(s, c, None);
    assert ThreadOk(s, t, None, {});
    TakeOff(s, c, th, {});
    assert {} + {t} == {t} && {t} - {t} == {};
    Settle(SetThread(s, t, th), t, Some(c), {t});
  }

  lemma BlockFacts(s: Sched, c: nat, q: nat)
    requires Steady(s) && OnCpu(s, c) && !CurrentIdle(s, c) && q in s.waits
    ensures var th := s.threads[s.current[c]].(state := Blocked, blockedOn := Some(q), blockRet := NO_ERROR);
            Inv(WaitEnqueue(SetThread(s, s.current[c], th), s.current[c], q), Some(c), {})
  {
    var t := s.current[c];
    assert CpuOk(s, c, None);
    assert ThreadOk(s, t, None, {});
    var th := s.threads[t].(state := Blocked, blockedOn := Some(q), blockRet := NO_ERROR);
    TakeOff(s, c, th, {});
    assert {} + {t} == {t} && {t} - {t} == {};
    WaitEnqueueInv(SetThread(s, t, th), t, q, Some(c), {t});
  }

  /** The states a wake of one waiter goes through. */
  lemma WakeFacts(s: Sched, c: nat, q: nat, err: int, resched: bool)
    requires Steady(s) && OnCpu(s, c) && q in s.waits && s.waits[q].list != [] && (resched ==> !CurrentIdle(s, c))
    ensures var t, s1, cur := s.waits[q].list[0], Release(s, q, 0, err, None), s.current[c];
            && t in s1.threads && s1.threads[t].priority < |s1.queues| && t != cur
            && (resched ==>
                  var s2 := SetThread(s1, cur, s1.threads[cur].(state := Ready));
                  && s2.threads[cur].priority < |s2.queues|
                  && Inv(Enqueue(Enqueue(s2, cur, true), t, true), Some(c), {}))
  {
    var t, s1, cur := s.waits[q].list[0], Release(s, q, 0, err, None), s.current[c];
    assert ThreadOk(s1, t, None, {t}) && ThreadOk(s1, cur, None, {t});
    assert CpuOk(s, c, None);
    if resched {
      var th := s1.threads[cur].(state := Ready);
      TakeOff(s1, c, th, {t});
      var s2 := SetThread(s1, cur, th);
      EnqueueInv(s2, cur, true, Some(c), {t} + {cur});
      assert {t} + {cur} - {cur} == {t} && {t} - {t} == {};
      EnqueueInv(Enqueue(s2, cur, true), t, true, Some(c), {t});
    }
  }
}
