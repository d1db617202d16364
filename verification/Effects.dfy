/** What each scheduler step does to one wait queue, so that an object built on the queue can be reasoned
    about on its own: its own calls move its waiters, every other step leaves them alone. */
module Effects {
  import opened Arith
  import opened Sched
  import opened Waiters

  /** What matters to a waiter: its return code and the queue it is blocked on. */
  function Fate(s: Sched, t: nat): Option<(int, Option<nat>)> {
    if t !in s.threads then None
    else Some((s.threads[t].blockRet, if s.threads[t].state == Blocked then s.threads[t].blockedOn else None))
  }

  lemma SwitchFate(s: Sched, c: nat, t: nat)
    requires Inv(s, Some(c), {}) && c < |s.current|
    ensures SwitchFrom(s, c).waits == s.waits && Fate(SwitchFrom(s, c), t) == Fate(s, t)
  {
    TopInv(s, c);
    SwitchInv(s, c);
  }

  lemma RequeueFate(s: Sched, c: nat, th: Thread, head: bool, t: nat)
    requires Steady(s) && OnCpu(s, c) && th.state == Ready && th.priority < NUM_PRIORITIES
    requires th == s.threads[s.current[c]].(state := Ready, quantum := th.quantum, priority := th.priority)
    ensures Requeue(s, c, th, head).waits == s.waits && Fate(Requeue(s, c, th, head), t) == Fate(s, t)
  {
    var cur := s.current[c];
    assert CpuOk(s, c, None);
    TakeOff(s, c, th, {});
    assert {} + {cur} == {cur} && {cur} - {cur} == {};
    var s1 := SetThread(s, cur, th);
    if th.isIdle {
      Settle(s1, cur, Some(c), {cur});
      SwitchFate(s1, c, t);
    } else {
      EnqueueInv(s1, cur, head, Some(c), {cur});
      SwitchFate(Enqueue(s1, cur, head), c, t);
    }
  }

  lemma BlockFate(s: Sched, c: nat, q: nat, t: nat)
    requires Steady(s) && OnCpu(s, c) && !CurrentIdle(s, c) && q in s.waits
    ensures var r, cur := BlockOn(s, c, q), s.current[c];
            && r.waits == s.waits[q := WaitQueue(s.waits[q].list + [cur], s.waits[q].count + 1)]
            && Fate(r, t) == if t == cur then Some((NO_ERROR, Some(q))) else Fate(s, t)
  {
    var cur := s.current[c];
    assert CpuOk(s, c, None);
    assert ThreadOk(s, cur, None, {});
    var th := s.threads[cur].(state := Blocked, blockedOn := Some(q), blockRet := NO_ERROR);
    TakeOff(s, c, th, {});
    assert {} + {cur} == {cur} && {cur} - {cur} == {};
    var s1 := SetThread(s, cur, th);
    WaitEnqueueInv(s1, cur, q, Some(c), {cur});
    SwitchFate(WaitEnqueue(s1, cur, q), c, t);
  }

  lemma WakeFirstFate(s: Sched, c: nat, q: nat, resched: bool, err: int, t: nat)
    requires Steady(s) && OnCpu(s, c) && q in s.waits && (resched ==> !CurrentIdle(s, c))
    ensures var r, l := WakeFirst(s, c, q, resched, err), s.waits[q].list;
            if l == [] then r == s
            else && r.waits == s.waits[q := WaitQueue(l[1..], s.waits[q].count - 1)]
                 && Fate(r, t) == if t == l[0] then Some((err, None)) else Fate(s, t)
  {
    var l := s.waits[q].list;
    if l != [] {
      var w := l[0];
      assert l[..0] + l[1..] == l[1..];
      var s1 := Release(s, q, 0, err, None);
      assert {w} - {w} == {};
      if resched {
        var cur := s.current[c];
        assert CpuOk(s1, c, None) && CpuOk(s, c, None);
        assert ThreadOk(s1, cur, None, {w});
        var th := s1.threads[cur].(state := Ready);
        TakeOff(s1, c, th, {w});
        var s2 := SetThread(s1, cur, th);
        EnqueueInv(s2, cur, true, Some(c), {w} + {cur});
        assert {w} + {cur} - {cur} == {w};
        var s3 := Enqueue(s2, cur, true);
        EnqueueInv(s3, w, true, Some(c), {w});
        SwitchFate(Enqueue(s3, w, true), c, t);
      } else {
        EnqueueInv(s1, w, true, None, {w});
      }
    }
  }

  lemma ReleaseFate(s: Sched, q: nat, err: int, mid: Option<nat>, t: nat)
    requires Inv(s, mid, {}) && q in s.waits && s.waits[q].list != []
    ensures var l, s1 := s.waits[q].list, Release(s, q, 0, err, mid);
            && Inv(s1, mid, {l[0]}) && s1.threads[l[0]].priority < |s1.queues|
            && var s2 := Enqueue(s1, l[0], true);
            && Inv(s2, mid, {}) && s2.waits == s.waits[q := WaitQueue(l[1..], s.waits[q].count - 1)]
            && Fate(s2, t) == if t == l[0] then Some((err, None)) else Fate(s, t)
  {
    var l := s.waits[q].list;
    assert l[..0] + l[1..] == l[1..];
    EnqueueInv(Release(s, q, 0, err, mid), l[0], true, mid, {l[0]});
    assert {l[0]} - {l[0]} == {};
  }

  lemma {:induction false} WakeEachFate(s: Sched, q: nat, err: int, mid: Option<nat>, t: nat)
    requires Inv(s, mid, {}) && q in s.waits
    ensures var r := WakeEach(s, q, err, mid);
            && r.waits == s.waits[q := WaitQueue([], s.waits[q].count - |s.waits[q].list|)]
            && Fate(r, t) == if t in s.waits[q].list then Some((err, None)) else Fate(s, t)
    decreases |s.waits[q].list|
  {
    var l := s.waits[q].list;
    if l != [] {
      ReleaseFate(s, q, err, mid, t);
      var s2 := Enqueue(Release(s, q, 0, err, mid), l[0], true);
      WakeEachFate(s2, q, err, mid, t);
      assert WakeEach(s, q, err, mid) == WakeEach(s2, q, err, mid);
      assert t in l <==> t == l[0] || t in l[1..];
    }
  }

  /** The current thread goes to the head of its run queue before it wakes others. */
  lemma StandBack(s: Sched, c: nat, t: nat)
    requires Steady(s) && OnCpu(s, c) && !CurrentIdle(s, c)
    ensures var s1 := SetThread(s, s.current[c], s.threads[s.current[c]].(state := Ready));
            && s1.threads[s.current[c]].priority < |s1.queues|
            && var s2 := Enqueue(s1, s.current[c], true);
            && Inv(s2, Some(c), {}) && s2.waits == s.waits && s2.current == s.current && Fate(s2, t) == Fate(s, t)
  {
    var cur := s.current[c];
    assert CpuOk(s, c, None);
    assert ThreadOk(s, cur, None, {});
    var th := s.threads[cur].(state := Ready);
    TakeOff(s, c, th, {});
    assert {} + {cur} == {cur} && {cur} - {cur} == {};
    EnqueueInv(SetThread(s, cur, th), cur, true, Some(c), {cur});
  }

  lemma WakeEveryFate(s: Sched, c: nat, q: nat, resched: bool, err: int, t: nat)
    requires Steady(s) && OnCpu(s, c) && q in s.waits && (resched ==> !CurrentIdle(s, c))
    ensures var r := WakeEvery(s, c, q, resched, err);
            && r.waits == s.waits[q := WaitQueue([], s.waits[q].count - |s.waits[q].list|)]
            && Fate(r, t) == if t in s.waits[q].list then Some((err, None)) else Fate(s, t)
  {
    if resched && s.waits[q].list != [] {
      StandBack(s, c, t);
      var cur := s.current[c];
      var s2 := Enqueue(SetThread(s, cur, s.threads[cur].(state := Ready)), cur, true);
      WakeEachFate(s2, q, err, Some(c), t);
      SwitchFate(WakeEach(s2, q, err, Some(c)), c, t);
    } else {
      WakeEachFate(s, q, err, None, t);
    }
  }

  lemma EvictFate(s: Sched, u: nat, err: int, t: nat)
    requires Steady(s) && u in s.threads
    ensures s.threads[u].state != Blocked ==> Evict(s, u, err) == s
    ensures s.threads[u].state == Blocked ==>
              && Fate(s, u).value.1.Some?
              && var q := Fate(s, u).value.1.value;
              && q in s.waits && u in s.waits[q].list
              && var l, i := s.waits[q].list, IndexOf(s.waits[q].list, u);
              && Evict(s, u, err).waits == s.waits[q := WaitQueue(l[..i] + l[i + 1..], s.waits[q].count - 1)]
              && Fate(Evict(s, u, err), t) == if t == u then Some((err, None)) else Fate(s, t)
  {
    assert ThreadOk(s, u, None, {});
  }

  lemma LeaveFate(s: Sched, c: nat, th: Thread, wake: Option<nat>, t: nat)
    requires Steady(s) && OnCpu(s, c) && !CurrentIdle(s, c) && th.state in {Sleeping, Death}
    requires th == s.threads[s.current[c]].(state := th.state) && (wake.Some? ==> wake.value in s.waits)
    ensures var r := Leave(s, c, th, wake);
            if wake.None? then r.waits == s.waits && Fate(r, t) == Fate(s, t)
            else var l := s.waits[wake.value].list;
                 && r.waits == s.waits[wake.value := WaitQueue([], s.waits[wake.value].count - |l|)]
                 && Fate(r, t) == if t in l then Some((NO_ERROR, None)) else Fate(s, t)
  {
    var s1 := SetThread(s, s.current[c], th);
    OffCpu(s, c, th, t);
    if wake.Some? {
      LeaveWaking(s1, c, wake.value, t);
    } else {
      SwitchFate(s1, c, t);
    }
  }

  /** The thread is off its CPU and on no queue. */
  lemma OffCpu(s: Sched, c: nat, th: Thread, t: nat)
    requires Steady(s) && OnCpu(s, c) && !CurrentIdle(s, c) && th.state in {Sleeping, Death}
    requires th == s.threads[s.current[c]].(state := th.state)
    ensures var s1 := SetThread(s, s.current[c], th);
            Inv(s1, Some(c), {}) && c < |s1.current| && s1.waits == s.waits && Fate(s1, t) == Fate(s, t)
  {
    var cur := s.current[c];
    assert CpuOk(s, c, None);
    assert ThreadOk(s, cur, None, {});
    TakeOff(s, c, th, {});
    assert {} + {cur} == {cur} && {cur} - {cur} == {};
    Settle(SetThread(s, cur, th), cur, Some(c), {cur});
  }

  lemma LeaveWaking(s: Sched, c: nat, q: nat, t: nat)
    requires Inv(s, Some(c), {}) && c < |s.current| && q in s.waits
    ensures var r, l := SwitchFrom(WakeEach(s, q, NO_ERROR, Some(c)), c), s.waits[q].list;
            && r.waits == s.waits[q := WaitQueue([], s.waits[q].count - |l|)]
            && Fate(r, t) == if t in l then Some((NO_ERROR, None)) else Fate(s, t)
  {
    WakeEachFate(s, q, NO_ERROR, Some(c), t);
    SwitchFate(WakeEach(s, q, NO_ERROR, Some(c)), c, t);
  }

  predicate Here(s: Sched, q: nat, t: nat) {
    t in s.threads && Fate(s, t).value.1 in {None, Some(q)}
  }

  /** The threads in `inside` are in a call on queue `q`: none of them is blocked elsewhere, and every waiter
      of the queue is one of them. */
  ghost predicate Confined(s: Sched, q: nat, inside: set<nat>) {
    && q in s.waits
    && (forall t {:trigger Here(s, q, t)} :: t in inside ==> Here(s, q, t))
    && (forall t :: t in s.waits[q].list ==> t in inside)
  }

  /** The waiters of queue `q`, read off the scheduler's state. */
  ghost function Seen(s: Sched, q: nat, inside: set<nat>, timed: set<nat>): Waiters
    requires Confined(s, q, inside)
  {
    var l := s.waits[q].list;
    assert forall t :: t in inside ==> Here(s, q, t);
    Waiters(l, map t | t in inside && t !in l :: Fate(s, t).value.0, timed)
  }

  /** A step that belongs to someone else: it does not touch queue `q` nor a thread in a call on it. */
  predicate Foreign(s: Sched, step: Step, q: nat, inside: set<nat>)
    requires Enabled(s, step)
  {
    match step
    case Block(c, r) => r != q && s.current[c] !in inside
    case WakeOne(_, r, _, _) => r != q
    case WakeAll(_, r, _, _) => r != q
    case Exit(c) => s.threads[s.current[c]].joinq != q
    case Unblock(t, _) => t !in inside
    case _ => true
  }

  /** A waiter of queue `r` is blocked on `r`. */
  lemma WaiterFate(s: Sched, r: nat, t: nat)
    requires Steady(s) && r in s.waits && t in s.waits[r].list
    ensures t in s.threads && Fate(s, t).value.1 == Some(r)
  {
    assert WaitOk(s, r, {});
    assert BlockedAt(s, s.waits[r].list[IndexOf(s.waits[r].list, t)], r);
  }

  /** A step by which the current thread gives up its CPU. */
  predicate GivesUp(step: Step) {
    step.Yield? || step.Preempt? || step.SetPriority? || step.Sleep? || step.Exit?
  }

  lemma GiveUpFate(s: Sched, step: Step, q: nat, inside: set<nat>, t: nat)
    requires Steady(s) && Enabled(s, step) && Confined(s, q, inside) && Foreign(s, step, q, inside) && GivesUp(step)
    ensures q in Next(s, step).waits && Next(s, step).waits[q] == s.waits[q]
    ensures t in inside ==> Fate(Next(s, step), t) == Fate(s, t)
  {
    assert t in inside ==> Here(s, q, t);
    match step
    case Yield(c) =>
      assert ThreadOk(s, s.current[c], None, {});
      RequeueFate(s, c, s.threads[s.current[c]].(state := Ready, quantum := 0), false, t);
    case Preempt(c) =>
      assert ThreadOk(s, s.current[c], None, {});
      var th := s.threads[s.current[c]];
      RequeueFate(s, c, th.(state := Ready), th.quantum > 0, t);
    case SetPriority(c, p) =>
      RequeueFate(s, c, s.threads[s.current[c]].(state := Ready, priority := ClampPriority(p)), true, t);
    case Sleep(c) =>
      LeaveFate(s, c, s.threads[s.current[c]].(state := Sleeping), None, t);
    case Exit(c) =>
      var th := s.threads[s.current[c]];
      LeaveFate(s, c, th.(state := Death), if th.detached then None else Some(th.joinq), t);
      if t in s.waits[th.joinq].list {
        WaiterFate(s, th.joinq, t);
      }
  }

  lemma ForeignFate(s: Sched, step: Step, q: nat, inside: set<nat>, t: nat)
    requires Steady(s) && Enabled(s, step) && Confined(s, q, inside) && Foreign(s, step, q, inside)
    ensures q in Next(s, step).waits && Next(s, step).waits[q] == s.waits[q]
    ensures t in inside ==> Fate(Next(s, step), t) == Fate(s, t)
  {
    if GivesUp(step) {
      GiveUpFate(s, step, q, inside, t);
    } else {
      assert t in inside ==> Here(s, q, t);
      match step
      case Block(c, r) => BlockFate(s, c, r, t);
      case WakeOne(c, r, resched, err) =>
        WakeFirstFate(s, c, r, resched, err, t);
        if t in s.waits[r].list {
          WaiterFate(s, r, t);
        }
      case WakeAll(c, r, resched, err) =>
        WakeEveryFate(s, c, r, resched, err, t);
        if t in s.waits[r].list {
          WaiterFate(s, r, t);
        }
      case Unblock(u, err) =>
        EvictFate(s, u, err, t);
      case _ =>
    }
  }

  /** Every step of another part of the kernel leaves an object's waiters exactly as they were. */
  lemma ForeignSeen(s: Sched, step: Step, q: nat, inside: set<nat>, timed: set<nat>)
    requires Steady(s) && Enabled(s, step) && Confined(s, q, inside) && Foreign(s, step, q, inside)
    ensures Confined(Next(s, step), q, inside)
    ensures Seen(Next(s, step), q, inside, timed) == Seen(s, q, inside, timed)
  {
    var s' := Next(s, step);
    ForeignFate(s, step, q, inside, 0);
    forall t {:trigger Fate(s', t)} {:trigger Here(s', q, t)} | t in inside
      ensures Fate(s', t) == Fate(s, t) && Here(s', q, t)
    {
      assert Here(s, q, t);
      ForeignFate(s, step, q, inside, t);
    }
  }

  /** Threads in `who` have the fate `f` now, and every other thread has the one it had. */
  ghost predicate Befell(s: Sched, s': Sched, who: set<nat>, f: Option<(int, Option<nat>)>) {
    forall t {:trigger Fate(s', t)} {:trigger Fate(s, t)} :: Fate(s', t) == if t in who then f else Fate(s, t)
  }

  lemma SeenJoined(s: Sched, s': Sched, q: nat, inside: set<nat>, timed: set<nat>, t: nat, timeout: nat)
    requires Confined(s, q, inside) && t !in inside && q in s'.waits && s'.waits[q].list == s.waits[q].list + [t]
    requires Befell(s, s', {t}, Some((NO_ERROR, Some(q))))
    ensures Confined(s', q, inside + {t})
    ensures var w := Seen(s, q, inside, timed);
            Join(w, t, timeout) == Seen(s', q, inside + {t}, Join(w, t, timeout).timed)
  {
    assert Fate(s', t) == Some((NO_ERROR, Some(q)));
    forall u | u in inside ensures Here(s', q, u) && Fate(s', u) == Fate(s, u) {
      assert Here(s, q, u);
    }
  }

  /** Threads in `who` were on the queue and have been released with the code `err`; `l` are the others. */
  lemma SeenReleased(s: Sched, s': Sched, q: nat, inside: set<nat>, timed: set<nat>, who: set<nat>, err: int,
                     l: seq<nat>)
    requires Confined(s, q, inside) && q in s'.waits && s'.waits[q].list == l
    requires forall t :: t in s.waits[q].list <==> t in who || t in l
    requires (forall t :: t in l ==> t !in who) && Befell(s, s', who, Some((err, None)))
    ensures Confined(s', q, inside)
    ensures var w, w' := Seen(s, q, inside, timed), Seen(s', q, inside, timed);
            && w'.list == l && w'.timed == timed && w'.woken.Keys == w.woken.Keys + who
            && forall t :: t in w'.woken ==> w'.woken[t] == if t in who then err else w.woken[t]
  {
    forall u | u in inside ensures Here(s', q, u) && Fate(s', u) == if u in who then Some((err, None)) else Fate(s, u) {
      assert Here(s, q, u);
    }
  }

  lemma BlockSeen(s: Sched, c: nat, q: nat, inside: set<nat>, timed: set<nat>, timeout: nat)
    requires Steady(s) && Enabled(s, Block(c, q)) && Confined(s, q, inside) && s.current[c] !in inside
    ensures var s', t, w := Next(s, Block(c, q)), s.current[c], Seen(s, q, inside, timed);
            && Confined(s', q, inside + {t})
            && Join(w, t, timeout) == Seen(s', q, inside + {t}, Join(w, t, timeout).timed)
  {
    var s', cur := Next(s, Block(c, q)), s.current[c];
    assert Befell(s, s', {cur}, Some((NO_ERROR, Some(q)))) by {
      forall t ensures Fate(s', t) == if t in {cur} then Some((NO_ERROR, Some(q))) else Fate(s, t) {
        BlockFate(s, c, q, t);
      }
    }
    assert s'.waits == s.waits[q := WaitQueue(s.waits[q].list + [cur], s.waits[q].count + 1)] by {
      BlockFate(s, c, q, cur);
    }
    SeenJoined(s, s', q, inside, timed, cur, timeout);
  }

  lemma WakeOneSeen(s: Sched, c: nat, q: nat, resched: bool, inside: set<nat>, timed: set<nat>)
    requires Steady(s) && Enabled(s, WakeOne(c, q, resched, NO_ERROR)) && Confined(s, q, inside)
    ensures var s' := Next(s, WakeOne(c, q, resched, NO_ERROR));
            Confined(s', q, inside) && Seen(s', q, inside, timed) == Grant(Seen(s, q, inside, timed))
  {
    var s', l := Next(s, WakeOne(c, q, resched, NO_ERROR)), s.waits[q].list;
    WakeFirstFate(s, c, q, resched, NO_ERROR, 0);
    if l != [] {
      assert NoDup(l) by {
        assert WaitOk(s, q, {});
      }
      TailOk(l);
      assert Befell(s, s', {l[0]}, Some((NO_ERROR, None))) by {
        forall t ensures Fate(s', t) == if t in {l[0]} then Some((NO_ERROR, None)) else Fate(s, t) {
          WakeFirstFate(s, c, q, resched, NO_ERROR, t);
        }
      }
      assert l == [l[0]] + l[1..];
      SeenReleased(s, s', q, inside, timed, {l[0]}, NO_ERROR, l[1..]);
    }
  }

  lemma WakeAllSeen(s: Sched, c: nat, q: nat, resched: bool, inside: set<nat>, timed: set<nat>)
    requires Steady(s) && Enabled(s, WakeAll(c, q, resched, NO_ERROR)) && Confined(s, q, inside)
    ensures var s' := Next(s, WakeAll(c, q, resched, NO_ERROR));
            Confined(s', q, inside) && Seen(s', q, inside, timed) == GrantAll(Seen(s, q, inside, timed))
  {
    var s', l := Next(s, WakeAll(c, q, resched, NO_ERROR)), s.waits[q].list;
    assert Befell(s, s', Elems(l), Some((NO_ERROR, None))) by {
      forall t ensures Fate(s', t) == if t in Elems(l) then Some((NO_ERROR, None)) else Fate(s, t) {
        WakeEveryFate(s, c, q, resched, NO_ERROR, t);
      }
    }
    assert s'.waits == s.waits[q := WaitQueue([], s.waits[q].count - |l|)] by {
      WakeEveryFate(s, c, q, resched, NO_ERROR, 0);
    }
    SeenReleased(s, s', q, inside, timed, Elems(l), NO_ERROR, []);
    assert Seen(s', q, inside, timed).woken == GrantAll(Seen(s, q, inside, timed)).woken;
  }

  lemma TimeoutSeen(s: Sched, u: nat, q: nat, inside: set<nat>, timed: set<nat>)
    requires Steady(s) && Enabled(s, Unblock(u, ERR_TIMED_OUT)) && Confined(s, q, inside) && u in inside
    ensures var s' := Next(s, Unblock(u, ERR_TIMED_OUT));
            Confined(s', q, inside) && Seen(s', q, inside, timed) == Expire(Seen(s, q, inside, timed), u)
  {
    var s', l := Next(s, Unblock(u, ERR_TIMED_OUT)), s.waits[q].list;
    EvictFate(s, u, ERR_TIMED_OUT, 0);
    if u in l {
      WaiterFate(s, q, u);
    }
    if s.threads[u].state == Blocked {
      assert Here(s, q, u);
      assert WaitOk(s, q, {});
      var i := IndexOf(l, u);
      forall t {:trigger Fate(s', t)} {:trigger Here(s', q, t)}
        ensures t in inside ==> Here(s, q, t)
        ensures Fate(s', t) == if t == u then Some((ERR_TIMED_OUT, None)) else Fate(s, t)
      {
        EvictFate(s, u, ERR_TIMED_OUT, t);
      }
      forall t ensures t in s'.waits[q].list <==> t in l && t != u {
        RemoveKeeps(l, i, t);
      }
    }
  }
}
