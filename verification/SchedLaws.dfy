/** What each scheduler step does, told by the states before and after it: who becomes ready and where it
    stands in line, whom the CPU is given to, and that nothing else changes. */
module SchedLaws {
  import opened Arith
  import opened Sched
  import opened Kernel

  /** Entry `i` of run queue `p` is a thread that CPU `c` may run. */
  predicate Offers(s: Sched, c: nat, p: nat, i: nat) {
    && p < |s.queues| && i < |s.queues[p]| && s.queues[p][i] in s.threads
    && (s.threads[s.queues[p][i]].pinned < 0 || s.threads[s.queues[p][i]].pinned == c)
  }

  /** Of all entries CPU `c` may run, this one has the highest priority and comes first in its queue. */
  ghost predicate Foremost(s: Sched, c: nat, p: nat, i: nat) {
    Offers(s, c, p, i) && forall r: nat, j: nat :: Offers(s, c, r, j) ==> r < p || (r == p && i <= j)
  }

  /** `next` is the foremost thread, taken off its queue, or the idle thread if there is none. */
  ghost predicate Chosen(s: Sched, c: nat, next: nat, queues: seq<seq<nat>>) {
    if exists p: nat, i: nat :: Offers(s, c, p, i) then
      exists p: nat, i: nat :: Foremost(s, c, p, i) && s.queues[p][i] == next
                     && queues == s.queues[p := s.queues[p][..i] + s.queues[p][i + 1..]]
    else c < |s.idle| && next == s.idle[c] && queues == s.queues
  }

  /** From `s`, in which the current thread of CPU `c` has stopped running, to `r`, in which the chosen thread
      runs there: one that takes over without quantum gets a full one. */
  ghost predicate Dispatched(s: Sched, c: nat, r: Sched) {
    && c < |s.current| == |r.current| && r.threads.Keys == s.threads.Keys
    && var prev, next := s.current[c], r.current[c];
    && prev in s.threads && next in s.threads && s.threads[next].state == Ready && Chosen(s, c, next, r.queues)
    && r == s.(threads := r.threads, queues := r.queues, bitmap := r.bitmap, current := s.current[c := next])
    && r.threads[next] == s.threads[next].(state := Running, cpu := c,
            quantum := if next != prev && s.threads[next].quantum <= 0 then 5 else s.threads[next].quantum)
    && (next != prev ==> r.threads[prev] == s.threads[prev].(cpu := -1))
    && forall u :: u in s.threads && u != prev && u != next ==> r.threads[u] == s.threads[u]
  }

  /** The same but for the run queue bitmap, which the queues determine between steps. */
  predicate Like(r: Sched, s: Sched) {
    r == s.(bitmap := r.bitmap)
  }

  /** thread_resched */
  lemma SwitchLaw(s: Sched, c: nat)
    requires Inv(s, Some(c), {}) && c < |s.current|
    ensures Dispatched(s, c, SwitchFrom(s, c))
  {
    TopInv(s, c);
    SwitchInv(s, c);
    assert CpuOk(s, c, Some(c));
    var r, next := SwitchFrom(s, c), Top(s, c).1;
    match Pick(s, c, |s.queues|)
    case None =>
      forall p: nat, i: nat ensures !Offers(s, c, p, i) {
        NoneOffered(s, c, p, i);
      }
    case Some((p, i)) =>
      assert Offers(s, c, p, i);
      forall q: nat, j: nat | Offers(s, c, q, j) ensures q < p || (q == p && i <= j) {
        NotAhead(s, c, p, i, q, j);
      }
      assert Foremost(s, c, p, i);
  }

  lemma NoneOffered(s: Sched, c: nat, p: nat, i: nat)
    requires Pick(s, c, |s.queues|).None?
    ensures !Offers(s, c, p, i)
  {
    if p < |s.queues| {
      assert FirstAllowed(s, s.queues[p], c).None?;
    }
  }

  lemma NotAhead(s: Sched, c: nat, p: nat, i: nat, q: nat, j: nat)
    requires Pick(s, c, |s.queues|) == Some((p, i)) && Offers(s, c, q, j)
    ensures q < p || (q == p && i <= j)
  {
    assert FirstAllowed(s, s.queues[q], c).Some?;
  }

  /** A suspended or sleeping thread made ready is first in the queue of its priority, and nothing else changes. */
  ghost predicate Readied(s: Sched, t: nat, r: Sched) {
    && t in s.threads && s.threads[t].priority < |s.queues|
    && var p := s.threads[t].priority;
    Like(r, s.(threads := s.threads[t := s.threads[t].(state := Ready)], queues := s.queues[p := [t] + s.queues[p]]))
  }

  lemma ResumeLaw(s: Sched, t: nat)
    requires Steady(s) && Enabled(s, Resume(t))
    ensures if s.threads[t].state == Suspended then Readied(s, t, Next(s, Resume(t))) else Next(s, Resume(t)) == s
  {
    assert ThreadOk(s, t, None, {});
  }

  lemma SleepDoneLaw(s: Sched, t: nat)
    requires Steady(s) && Enabled(s, SleepDone(t))
    ensures Readied(s, t, Next(s, SleepDone(t)))
  {
    assert ThreadOk(s, t, None, {});
  }

  /** A tick takes one unit of quantum from a thread that is neither idle nor real-time. */
  lemma TickLaw(s: Sched, c: nat)
    requires Steady(s) && Enabled(s, Tick(c))
    ensures var t := s.current[c];
            var left := s.threads[t].quantum - if s.threads[t].isIdle || s.threads[t].realTime then 0 else 1;
            Next(s, Tick(c)) == s.(threads := s.threads[t := s.threads[t].(quantum := left)])
  {
    var t := s.current[c];
    assert s.threads == s.threads[t := s.threads[t]];
  }

  /** The steps that move no thread. */
  lemma PlainLaw(s: Sched, step: Step)
    requires Steady(s) && Enabled(s, step) && (step.Create? || step.SetRealTime? || step.NewQueue?)
    ensures Next(s, step) ==
            match step
            case Create(t, info) => s.(threads := s.threads[t := info])
            case SetRealTime(t) => s.(threads := s.threads[t := s.threads[t].(realTime := true)])
            case NewQueue(q) => s.(waits := s.waits[q := WaitQueue([], 0)])
            case _ => s
  {
  }

  /** A yielding thread gives up its quantum and goes last in its queue (an idle thread on none). */
  lemma YieldLaw(s: Sched, c: nat)
    requires Steady(s) && Enabled(s, Yield(c))
    ensures var t := s.current[c]; var p := s.threads[t].priority;
            && p < |s.queues|
            && Dispatched(s.(threads := s.threads[t := s.threads[t].(state := Ready, quantum := 0)],
                             queues := if s.threads[t].isIdle then s.queues else s.queues[p := s.queues[p] + [t]]),
                          c, Next(s, Yield(c)))
  {
    var t := s.current[c];
    assert ThreadOk(s, t, None, {});
    RequeueLaw(s, c, s.threads[t].(state := Ready, quantum := 0), false);
  }

  /** A preempted thread goes first in its queue if it has quantum left, last if it has none. */
  lemma PreemptLaw(s: Sched, c: nat)
    requires Steady(s) && Enabled(s, Preempt(c))
    ensures var t := s.current[c]; var p := s.threads[t].priority;
            && p < |s.queues|
            && Dispatched(s.(threads := s.threads[t := s.threads[t].(state := Ready)],
                             queues := if s.threads[t].isIdle then s.queues
                                       else if s.threads[t].quantum > 0 then s.queues[p := [t] + s.queues[p]]
                                       else s.queues[p := s.queues[p] + [t]]),
                          c, Next(s, Preempt(c)))
  {
    var t := s.current[c];
    assert ThreadOk(s, t, None, {});
    RequeueLaw(s, c, s.threads[t].(state := Ready), s.threads[t].quantum > 0);
  }

  /** The new priority is the one asked for, brought into 1 to 31; the thread goes first in that queue. */
  lemma SetPriorityLaw(s: Sched, c: nat, priority: int)
    requires Steady(s) && Enabled(s, SetPriority(c, priority))
    ensures var t := s.current[c]; var p := if priority < 1 then 1 else if priority > 31 then 31 else priority;
            && p < |s.queues|
            && Dispatched(s.(threads := s.threads[t := s.threads[t].(state := Ready, priority := p)],
                             queues := s.queues[p := [t] + s.queues[p]]),
                          c, Next(s, SetPriority(c, priority)))
  {
    RequeueLaw(s, c, s.threads[s.current[c]].(state := Ready, priority := ClampPriority(priority)), true);
  }

  lemma RequeueLaw(s: Sched, c: nat, th: Thread, head: bool)
    requires Steady(s) && OnCpu(s, c) && th.state == Ready && th.priority < NUM_PRIORITIES
    requires th == s.threads[s.current[c]].(state := Ready, quantum := th.quantum, priority := th.priority)
    ensures var t, p := s.current[c], th.priority;
            && p < |s.queues|
            && Dispatched(s.(threads := s.threads[t := th],
                             queues := if th.isIdle then s.queues else if head then s.queues[p := [t] + s.queues[p]]
                                       else s.queues[p := s.queues[p] + [t]]),
                          c, Requeue(s, c, th, head))
  {
    CurrentFacts(s, c, th, head);
    SwitchLaw(Requeued(s, c, th, head), c);
    var t, p := s.current[c], th.priority;
    var x := s.(threads := s.threads[t := th],
                queues := if th.isIdle then s.queues else if head then s.queues[p := [t] + s.queues[p]]
                          else s.queues[p := s.queues[p] + [t]]);
    DispatchedLike(Requeued(s, c, th, head), x, c, Requeue(s, c, th, head));
  }

  /** The bitmap has no part in the choice. */
  lemma DispatchedLike(s: Sched, x: Sched, c: nat, r: Sched)
    requires Dispatched(s, c, r) && Like(s, x)
    ensures Dispatched(x, c, r)
  {
    forall p: nat, i: nat ensures Offers(s, c, p, i) == Offers(x, c, p, i) {
    }
    if exists p: nat, i: nat :: Offers(s, c, p, i) {
      var p: nat, i: nat :| Foremost(s, c, p, i) && s.queues[p][i] == r.current[c]
                  && r.queues == s.queues[p := s.queues[p][..i] + s.queues[p][i + 1..]];
      assert Offers(x, c, p, i) && Foremost(x, c, p, i);
    }
  }

  /** A sleeping thread is on no queue. */
  lemma SleepLaw(s: Sched, c: nat)
    requires Steady(s) && Enabled(s, Sleep(c))
    ensures var t := s.current[c];
            Dispatched(s.(threads := s.threads[t := s.threads[t].(state := Sleeping)]), c, Next(s, Sleep(c)))
  {
    var th := s.threads[s.current[c]].(state := Sleeping);
    LeaveFacts(s, c, th);
    SwitchLaw(SetThread(s, s.current[c], th), c);
  }

  /** A blocking thread is last in the wait queue, with success as the code it will return unless told otherwise. */
  lemma BlockLaw(s: Sched, c: nat, q: nat)
    requires Steady(s) && Enabled(s, Block(c, q))
    ensures var t := s.current[c];
            Dispatched(s.(threads := s.threads[t := s.threads[t].(state := Blocked, blockedOn := Some(q),
                                                                  blockRet := 0)],
                          waits := s.waits[q := WaitQueue(s.waits[q].list + [t], s.waits[q].count + 1)]),
                       c, Next(s, Block(c, q)))
  {
    var t := s.current[c];
    var th := s.threads[t].(state := Blocked, blockedOn := Some(q), blockRet := NO_ERROR);
    BlockFacts(s, c, q);
    var y := WaitEnqueue(SetThread(s, t, th), t, q);
    var x := s.(threads := s.threads[t := th],
                waits := s.waits[q := WaitQueue(s.waits[q].list + [t], s.waits[q].count + 1)]);
    SwitchLaw(y, c);
    assert y == x && Next(s, Block(c, q)) == SwitchFrom(y, c);
  }

  /** The threads of `l` with priority `p`, the last one first. */
  function Backwards(threads: map<nat, Thread>, l: seq<nat>, p: nat): seq<nat> {
    if l == [] then []
    else Backwards(threads, l[1..], p) + if l[0] in threads && threads[l[0]].priority == p then [l[0]] else []
  }

  /** Every waiter of `q` is ready with the code `err`, each put first in its queue after the one before it. */
  ghost function Woken(s: Sched, q: nat, err: int): Sched
    requires q in s.waits
  {
    var l := s.waits[q].list;
    s.(threads := map u | u in s.threads ::
                    if u in l then s.threads[u].(state := Ready, blockRet := err, blockedOn := None) else s.threads[u],
       queues := seq(|s.queues|, p requires 0 <= p < |s.queues| => Backwards(s.threads, l, p) + s.queues[p]),
       waits := s.waits[q := WaitQueue([], 0)])
  }

  lemma {:induction false} BackwardsSame(m: map<nat, Thread>, n: map<nat, Thread>, l: seq<nat>, p: nat)
    requires m.Keys == n.Keys && forall u :: u in m ==> m[u].priority == n[u].priority
    ensures Backwards(m, l, p) == Backwards(n, l, p)
  {
    if l != [] {
      BackwardsSame(m, n, l[1..], p);
    }
  }

  lemma {:induction false} WakeEachLaw(s: Sched, q: nat, err: int, mid: Option<nat>)
    requires Inv(s, mid, {}) && q in s.waits
    ensures Like(WakeEach(s, q, err, mid), Woken(s, q, err))
    decreases |s.waits[q].list|
  {
    var l := s.waits[q].list;
    assert WaitOk(s, q, {});
    if l == [] {
      assert s.waits == s.waits[q := WaitQueue([], 0)];
      assert Woken(s, q, err).threads == s.threads;
      forall p | 0 <= p < |s.queues| ensures Woken(s, q, err).queues[p] == s.queues[p] {
        assert Backwards(s.threads, l, p) == [];
      }
      assert Woken(s, q, err).queues == s.queues;
    } else {
      var t, s1 := l[0], Release(s, q, 0, err, mid);
      EnqueueInv(s1, t, true, mid, {t});
      assert {t} - {t} == {};
      var s2 := Enqueue(s1, t, true);
      assert l[..0] + l[1..] == l[1..];
      WakeEachLaw(s2, q, err, mid);
      assert WakeEach(s, q, err, mid) == WakeEach(s2, q, err, mid);
      WokenStep(s, s2, q, err);
    }
  }

  lemma WokenStep(s: Sched, s2: Sched, q: nat, err: int)
    requires q in s.waits && s.waits[q].list != []
    requires var l := s.waits[q].list; var t := l[0];
             && t in s.threads && s.threads[t].priority < |s.queues|
             && var p := s.threads[t].priority;
             Like(s2, s.(threads := s.threads[t := s.threads[t].(state := Ready, blockRet := err, blockedOn := None)],
                         queues := s.queues[p := [t] + s.queues[p]],
                         waits := s.waits[q := WaitQueue(l[1..], s.waits[q].count - 1)]))
    ensures Like(Woken(s2, q, err), Woken(s, q, err))
  {
    var l := s.waits[q].list;
    var w, w2 := Woken(s, q, err), Woken(s2, q, err);
    forall u | u in s.threads ensures w2.threads[u] == w.threads[u] {
      assert u in l <==> u == l[0] || u in l[1..];
    }
    assert w2.threads == w.threads;
    forall p | 0 <= p < |s.queues| ensures w2.queues[p] == w.queues[p] {
      BackwardsSame(s.threads, s2.threads, l[1..], p);
    }
    assert w2.queues == w.queues && w2.waits == w.waits;
  }

  /** The exiting thread is dead, and unless it was detached every thread waiting to join it is ready with
      success. */
  lemma ExitLaw(s: Sched, c: nat)
    requires Steady(s) && Enabled(s, Exit(c))
    ensures var t := s.current[c];
            var x := s.(threads := s.threads[t := s.threads[t].(state := Death)]);
            Dispatched(if s.threads[t].detached then x else Woken(x, s.threads[t].joinq, 0), c, Next(s, Exit(c)))
  {
    var t := s.current[c];
    var th := s.threads[t].(state := Death);
    LeaveFacts(s, c, th);
    var x := SetThread(s, t, th);
    if th.detached {
      SwitchLaw(x, c);
    } else {
      var y := WakeEach(x, th.joinq, NO_ERROR, Some(c));
      WakeEachLaw(x, th.joinq, NO_ERROR, Some(c));
      SwitchLaw(y, c);
      DispatchedLike(y, Woken(x, th.joinq, 0), c, Next(s, Exit(c)));
    }
  }

  /** The current thread of `c`, ready and first in its queue. */
  function Aside(s: Sched, c: nat): Sched
    requires OnCpu(s, c) && s.threads[s.current[c]].priority < |s.queues|
  {
    var t := s.current[c]; var p := s.threads[t].priority;
    s.(threads := s.threads[t := s.threads[t].(state := Ready)], queues := s.queues[p := [t] + s.queues[p]])
  }

  /** `t`, the first waiter of `q`, off that queue and ready with the code `err`, first in its run queue. */
  function FirstOut(s: Sched, q: nat, t: nat, err: int): Sched
    requires q in s.waits && s.waits[q].list != [] && t in s.threads && s.threads[t].priority < |s.queues|
  {
    var p := s.threads[t].priority;
    s.(threads := s.threads[t := s.threads[t].(state := Ready, blockRet := err, blockedOn := None)],
       queues := s.queues[p := [t] + s.queues[p]],
       waits := s.waits[q := WaitQueue(s.waits[q].list[1..], s.waits[q].count - 1)])
  }

  /** The first waiter is woken; with `resched` it stands in front of the waker and the CPU is given away. */
  lemma WakeOneLaw(s: Sched, c: nat, q: nat, resched: bool, err: int)
    requires Steady(s) && Enabled(s, WakeOne(c, q, resched, err))
    ensures var r, l := Next(s, WakeOne(c, q, resched, err)), s.waits[q].list;
            if l == [] then r == s
            else
              && l[0] in s.threads && s.threads[l[0]].priority < |s.queues|
              && s.threads[s.current[c]].priority < |s.queues|
              && if resched then Dispatched(FirstOut(Aside(s, c), q, l[0], err), c, r)
                 else Like(r, FirstOut(s, q, l[0], err))
  {
    var l, cur := s.waits[q].list, s.current[c];
    assert ThreadOk(s, cur, None, {});
    if l != [] {
      WakeFacts(s, c, q, err, resched);
      ReleaseFirst(s, q, err, None);
      var s1 := Release(s, q, 0, err, None);
      if resched {
        var y := Enqueue(Enqueue(SetThread(s1, cur, s1.threads[cur].(state := Ready)), cur, true), l[0], true);
        assert Next(s, WakeOne(c, q, resched, err)) == SwitchFrom(y, c);
        SwitchLaw(y, c);
        AsideFirst(s, c, q, err, s1, y);
        DispatchedLike(y, FirstOut(Aside(s, c), q, l[0], err), c, SwitchFrom(y, c));
      }
    }
  }

  lemma ReleaseFirst(s: Sched, q: nat, err: int, mid: Option<nat>)
    requires Inv(s, mid, {}) && q in s.waits && s.waits[q].list != []
    ensures var s1, l := Release(s, q, 0, err, mid), s.waits[q].list;
            && l[0] in s.threads
            && s1 == s.(threads := s.threads[l[0] := s.threads[l[0]].(state := Ready, blockRet := err,
                                                                      blockedOn := None)],
                        waits := s.waits[q := WaitQueue(l[1..], s.waits[q].count - 1)])
  {
    var l, s1 := s.waits[q].list, Release(s, q, 0, err, mid);
    assert l[..0] + l[1..] == l[1..];
    assert s1.queues == s.queues && s1.bitmap == s.bitmap;
  }

  lemma AsideFirst(s: Sched, c: nat, q: nat, err: int, s1: Sched, y: Sched)
    requires OnCpu(s, c) && s.threads[s.current[c]].priority < |s.queues| && q in s.waits && s.waits[q].list != []
    requires var l := s.waits[q].list;
             && l[0] in s.threads && l[0] != s.current[c] && s.threads[l[0]].priority < |s.queues|
             && s1 == s.(threads := s.threads[l[0] := s.threads[l[0]].(state := Ready, blockRet := err,
                                                                       blockedOn := None)],
                         waits := s.waits[q := WaitQueue(l[1..], s.waits[q].count - 1)])
    requires var cur, t := s.current[c], s.waits[q].list[0];
             y == Enqueue(Enqueue(SetThread(s1, cur, s1.threads[cur].(state := Ready)), cur, true), t, true)
    ensures Like(y, FirstOut(Aside(s, c), q, s.waits[q].list[0], err))
  {
    assert y.threads == FirstOut(Aside(s, c), q, s.waits[q].list[0], err).threads;
  }

  /** All waiters are woken; with `resched`, and if there were any, they stand in front of the waker and the
      CPU is given away. */
  lemma WakeAllLaw(s: Sched, c: nat, q: nat, resched: bool, err: int)
    requires Steady(s) && Enabled(s, WakeAll(c, q, resched, err))
    ensures var r := Next(s, WakeAll(c, q, resched, err));
            && s.threads[s.current[c]].priority < |s.queues|
            && if resched && s.waits[q].list != [] then Dispatched(Woken(Aside(s, c), q, err), c, r)
               else Like(r, Woken(s, q, err))
  {
    var cur := s.current[c];
    assert ThreadOk(s, cur, None, {});
    if resched && s.waits[q].list != [] {
      var th := s.threads[cur].(state := Ready);
      CurrentFacts(s, c, th, true);
      var x := Requeued(s, c, th, true);
      var y := WakeEach(x, q, err, Some(c));
      WakeEachLaw(x, q, err, Some(c));
      SwitchLaw(y, c);
      assert Like(x, Aside(s, c));
      assert Like(y, Woken(Aside(s, c), q, err));
      DispatchedLike(y, Woken(Aside(s, c), q, err), c, Next(s, WakeAll(c, q, resched, err)));
    } else {
      WakeEachLaw(s, q, err, None);
    }
  }

  /** A blocked thread leaves its wait queue, wherever in it, and is first in its run queue; another thread is
      left alone. */
  lemma UnblockLaw(s: Sched, t: nat, err: int)
    requires Steady(s) && Enabled(s, Unblock(t, err))
    ensures var r, th := Next(s, Unblock(t, err)), s.threads[t];
            if th.state != Blocked then r == s
            else
              && th.priority < |s.queues| && th.blockedOn.Some? && th.blockedOn.value in s.waits
              && var q, p := th.blockedOn.value, th.priority;
              exists i :: && 0 <= i < |s.waits[q].list| && s.waits[q].list[i] == t
                          && Like(r, s.(threads := s.threads[t := th.(state := Ready, blockRet := err,
                                                                      blockedOn := None)],
                                        queues := s.queues[p := [t] + s.queues[p]],
                                        waits := s.waits[q := WaitQueue(s.waits[q].list[..i] + s.waits[q].list[i + 1..],
                                                                        s.waits[q].count - 1)]))
  {
    assert ThreadOk(s, t, None, {});
    if s.threads[t].state == Blocked {
      var q := s.threads[t].blockedOn.value;
      var i := IndexOf(s.waits[q].list, t);
      assert s.waits[q].list[i] == t;
    }
  }

  /** A ready thread that CPU `c` may run, of a priority above `p`, or of `p` itself unless `strict`. */
  predicate Rival(s: Sched, c: nat, u: nat, p: nat, strict: bool) {
    && u in s.threads && s.threads[u].state == Ready && !s.threads[u].isIdle
    && (s.threads[u].pinned < 0 || s.threads[u].pinned == c)
    && (s.threads[u].priority > p || (s.threads[u].priority == p && !strict))
  }

  /** The current thread of `c`, changed to `th`, is first or last in its queue, and the CPU has been given away. */
  ghost predicate Requeues(s: Sched, c: nat, th: Thread, head: bool, r: Sched) {
    && OnCpu(s, c) && th.priority < |s.queues|
    && var t, p := s.current[c], th.priority;
    && th == s.threads[t].(state := Ready, quantum := th.quantum) && !th.isIdle
    && Dispatched(s.(threads := s.threads[t := th],
                     queues := s.queues[p := if head then [t] + s.queues[p] else s.queues[p] + [t]]), c, r)
  }

  lemma Rivals(s: Sched, c: nat, th: Thread, head: bool, r: Sched)
    requires Steady(s) && Requeues(s, c, th, head, r)
    ensures var t, p := s.current[c], th.priority;
            && (r.current[c] == t <==> !exists u :: Rival(s, c, u, p, head))
            && (r.current[c] != t ==> && t in r.threads && r.threads[t].state == Ready && r.queues[p] != []
                                      && t == if head then r.queues[p][0] else r.queues[p][|r.queues[p]| - 1])
  {
    var t, p := s.current[c], th.priority;
    var x := s.(threads := s.threads[t := th],
                queues := s.queues[p := if head then [t] + s.queues[p] else s.queues[p] + [t]]);
    var at := if head then 0 else |s.queues[p]|;
    assert CpuOk(s, c, None);
    assert Offers(x, c, p, at);
    var q: nat, i: nat :| Foremost(x, c, q, i) && x.queues[q][i] == r.current[c]
                          && r.queues == x.queues[q := x.queues[q][..i] + x.queues[q][i + 1..]];
    if q == p && i == at {
      forall u ensures !Rival(s, c, u, p, head) {
        if Rival(s, c, u, p, head) {
          RivalAhead(s, c, th, head, x, u);
        }
      }
    } else {
      assert q > p || (q == p && !head && i < at);
      assert s.queues[q][i] == x.queues[q][i];
      AheadRival(s, c, q, i, p, head);
    }
  }

  lemma AheadRival(s: Sched, c: nat, q: nat, i: nat, p: nat, head: bool)
    requires Steady(s) && Offers(s, c, q, i) && (q > p || (q == p && !head))
    ensures Rival(s, c, s.queues[q][i], p, head)
  {
    assert QueueOk(s, q, {}) && ReadyAt(s, s.queues[q][i], q);
  }

  /** A rival stands before the place of the thread that was put back. */
  lemma RivalAhead(s: Sched, c: nat, th: Thread, head: bool, x: Sched, u: nat)
    requires Steady(s) && OnCpu(s, c) && th.priority < |s.queues| && Rival(s, c, u, th.priority, head)
    requires var t, p := s.current[c], th.priority;
             && x == s.(threads := s.threads[t := th],
                        queues := s.queues[p := if head then [t] + s.queues[p] else s.queues[p] + [t]])
    ensures exists j: nat :: && Offers(x, c, s.threads[u].priority, j)
                             && (s.threads[u].priority > th.priority || (!head && j < |s.queues[th.priority]|))
  {
    assert ThreadOk(s, u, None, {}) && CpuOk(s, c, None);
    var pu := s.threads[u].priority;
    var j := IndexOf(s.queues[pu], u);
    assert x.queues[pu][j] == u;
    assert Offers(x, c, pu, j);
  }

  /** A yielding thread goes on at once exactly when no ready thread of at least its priority may run there;
      otherwise it is ready, last in its queue. */
  lemma YieldGivesWay(s: Sched, c: nat)
    requires Steady(s) && Enabled(s, Yield(c)) && !CurrentIdle(s, c)
    ensures var r, t := Next(s, Yield(c)), s.current[c]; var p := s.threads[t].priority;
            && |r.current| == |s.current| && p < |r.queues|
            && (r.current[c] == t <==> !exists u :: Rival(s, c, u, p, false))
            && (r.current[c] != t ==> && t in r.threads && r.threads[t].state == Ready && r.queues[p] != []
                                      && r.queues[p][|r.queues[p]| - 1] == t)
  {
    var th := s.threads[s.current[c]].(state := Ready, quantum := 0);
    YieldLaw(s, c);
    Rivals(s, c, th, false, Next(s, Yield(c)));
  }

  /** A preempted thread with quantum left goes on unless a thread of higher priority is ready; one without
      quantum gives way to its equals too. */
  lemma PreemptGivesWay(s: Sched, c: nat)
    requires Steady(s) && Enabled(s, Preempt(c)) && !CurrentIdle(s, c)
    ensures var r, t := Next(s, Preempt(c)), s.current[c];
            var p, head := s.threads[t].priority, s.threads[t].quantum > 0;
            && |r.current| == |s.current| && p < |r.queues|
            && (r.current[c] == t <==> !exists u :: Rival(s, c, u, p, head))
            && (r.current[c] != t ==> && t in r.threads && r.threads[t].state == Ready && r.queues[p] != []
                                      && t == if head then r.queues[p][0] else r.queues[p][|r.queues[p]| - 1])
  {
    var th := s.threads[s.current[c]].(state := Ready);
    PreemptLaw(s, c);
    Rivals(s, c, th, th.quantum > 0, Next(s, Preempt(c)));
  }

  /** After an exit the thread is dead, and each thread that was waiting to join it, unless it was detached, is
      ready with success, or running already. */
  lemma JoinersReleased(s: Sched, c: nat, u: nat)
    requires Steady(s) && Enabled(s, Exit(c))
    ensures var r, t := Next(s, Exit(c)), s.current[c];
            && |r.current| == |s.current| && t in r.threads && r.threads[t].state == Death && r.current[c] != t
            && (!s.threads[t].detached && u in s.waits[s.threads[t].joinq].list ==>
                  && u in r.threads && r.threads[u].blockRet == 0 && r.threads[u].blockedOn == None
                  && r.threads[u].state == if r.current[c] == u then Running else Ready)
  {
    ExitLaw(s, c);
    var r, t, q := Next(s, Exit(c)), s.current[c], s.threads[s.current[c]].joinq;
    var x := s.(threads := s.threads[t := s.threads[t].(state := Death)]);
    assert s.threads[t].state == Running by {
      assert CpuOk(s, c, None);
    }
    var l := s.waits[q].list;
    assert t !in l && (u in l ==> u in s.threads) by {
      assert WaitOk(s, q, {});
    }
    DispatchKeeps(if s.threads[t].detached then x else Woken(x, q, 0), c, r, t);
    if u in l {
      DispatchKeeps(if s.threads[t].detached then x else Woken(x, q, 0), c, r, u);
    }
  }

  /** A switch changes the state of no thread but the one that runs next, which was ready. */
  lemma DispatchKeeps(s: Sched, c: nat, r: Sched, u: nat)
    requires Dispatched(s, c, r) && u in s.threads
    ensures |r.current| == |s.current| && u in r.threads && (r.current[c] == u ==> s.threads[u].state == Ready)
    ensures r.threads[u].blockRet == s.threads[u].blockRet && r.threads[u].blockedOn == s.threads[u].blockedOn
    ensures r.threads[u].state == if r.current[c] == u then Running else s.threads[u].state
  {
  }

  /** No step brings a dead thread back. */
  lemma DeadStays(s: Sched, step: Step, t: nat)
    requires Steady(s) && Enabled(s, step) && t in s.threads && s.threads[t].state == Death
    ensures t in Next(s, step).threads && Next(s, step).threads[t].state == Death
  {
    match step
    case Exit(c) => DeadExit(s, c, t);
    case WakeOne(c, q, resched, err) => DeadUnwoken(s, c, q, resched, err, t);
    case WakeAll(c, q, resched, err) => DeadUnwokenAll(s, c, q, resched, err, t);
    case Yield(c) => DeadAside(s, step, c, t);
    case Preempt(c) => DeadAside(s, step, c, t);
    case SetPriority(c, _) => DeadAside(s, step, c, t);
    case Sleep(c) => DeadAside(s, step, c, t);
    case Block(c, _) => DeadAside(s, step, c, t);
    case _ => DeadElse(s, step, t);
  }

  lemma DeadElse(s: Sched, step: Step, t: nat)
    requires Steady(s) && Enabled(s, step) && t in s.threads && s.threads[t].state == Death
    requires step.Create? || step.Resume? || step.Tick? || step.SetRealTime? || step.SleepDone? || step.NewQueue?
             || step.Unblock?
    ensures t in Next(s, step).threads && Next(s, step).threads[t].state == Death
  {
    match step
    case Resume(u) => ResumeLaw(s, u);
    case SleepDone(u) => SleepDoneLaw(s, u);
    case Unblock(u, err) => UnblockLaw(s, u, err);
    case Tick(c) => TickLaw(s, c);
    case Create(_, _) =>
    case SetRealTime(_) =>
    case NewQueue(_) =>
  }

  lemma DeadExit(s: Sched, c: nat, t: nat)
    requires Steady(s) && Enabled(s, Exit(c)) && t in s.threads && s.threads[t].state == Death
    ensures t in Next(s, Exit(c)).threads && Next(s, Exit(c)).threads[t].state == Death
  {
    ExitLaw(s, c);
    NotWaiting(s, s.threads[s.current[c]].joinq, t);
    assert CpuOk(s, c, None);
  }

  lemma DeadAside(s: Sched, step: Step, c: nat, t: nat)
    requires Steady(s) && Enabled(s, step) && t in s.threads && s.threads[t].state == Death
    requires step in {Yield(c), Preempt(c), Sleep(c)} || (step.SetPriority? && step.c == c)
             || (step.Block? && step.c == c)
    ensures t in Next(s, step).threads && Next(s, step).threads[t].state == Death
  {
    assert s.threads[s.current[c]].state == Running by {
      assert CpuOk(s, c, None);
    }
    match step
    case Yield(_) => YieldLaw(s, c);
    case Preempt(_) => PreemptLaw(s, c);
    case SetPriority(_, p) => SetPriorityLaw(s, c, p);
    case Sleep(_) => SleepLaw(s, c);
    case Block(_, q) => BlockLaw(s, c, q);
  }

  lemma DeadUnwoken(s: Sched, c: nat, q: nat, resched: bool, err: int, t: nat)
    requires Steady(s) && Enabled(s, WakeOne(c, q, resched, err)) && t in s.threads && s.threads[t].state == Death
    ensures var r := Next(s, WakeOne(c, q, resched, err)); t in r.threads && r.threads[t].state == Death
  {
    assert s.threads[s.current[c]].state == Running by {
      assert CpuOk(s, c, None);
    }
    NotWaiting(s, q, t);
    WakeOneLaw(s, c, q, resched, err);
  }

  lemma DeadUnwokenAll(s: Sched, c: nat, q: nat, resched: bool, err: int, t: nat)
    requires Steady(s) && Enabled(s, WakeAll(c, q, resched, err)) && t in s.threads && s.threads[t].state == Death
    ensures var r := Next(s, WakeAll(c, q, resched, err)); t in r.threads && r.threads[t].state == Death
  {
    assert s.threads[s.current[c]].state == Running by {
      assert CpuOk(s, c, None);
    }
    NotWaiting(s, q, t);
    WakeAllLaw(s, c, q, resched, err);
  }

  lemma NotWaiting(s: Sched, q: nat, t: nat)
    requires Steady(s) && t in s.threads && s.threads[t].state != Blocked && q in s.waits
    ensures t !in s.waits[q].list
  {
    assert WaitOk(s, q, {});
  }

  /** Over any run a dead thread stays dead: it never runs again, whatever is woken, resumed or timed out. */
  lemma {:induction false} DeadForever(s: Sched, steps: seq<Step>, t: nat)
    requires Steady(s) && Legal(s, steps) && t in s.threads && s.threads[t].state == Death
    ensures var r := Run(s, steps); t in r.threads && r.threads[t].state == Death && t !in r.current
    decreases |steps|
  {
    if steps == [] {
      forall c | 0 <= c < |s.current| ensures s.current[c] != t {
        assert CpuOk(s, c, None);
      }
    } else {
      DeadStays(s, steps[0], t);
      DeadForever(Next(s, steps[0]), steps[1..], t);
    }
  }
}
