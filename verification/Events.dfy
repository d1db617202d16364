/** kernel/event.c, with the two halves of a blocking wait as separate steps. */
module Events {
  import opened Arith
  import opened Sched
  import opened Waiters
  import opened Effects
  import opened Kernel

  /** `supply` is the initial signal, if any, plus the signal calls; `passed` counts the waits that have
      returned success; `lost` the signals that found the event signalled or were cancelled by an unsignal. */
  datatype Ev = Ev(signaled: bool, auto: bool, w: Waiters, supply: nat, passed: nat, lost: nat)

  datatype Act = Wait(t: nat, timeout: nat) | Signal | Unsignal | Timeout(t: nat) | Wakeup(t: nat)

  function Bit(b: bool): nat {
    if b then 1 else 0
  }

  function Fresh(initial: bool, auto: bool): Ev {
    Ev(initial, auto, NoWaiters, Bit(initial), 0, 0)
  }

  predicate Can(e: Ev, a: Act) {
    match a
    case Wait(t, _) => !Inside(e.w, t)
    case Signal => true
    case Unsignal => true
    case Timeout(t) => Inside(e.w, t) && t in e.w.timed
    case Wakeup(t) => t in e.w.woken
  }

  function Do(e: Ev, a: Act): Ev
    requires Can(e, a)
  {
    match a
    case Wait(t, timeout) =>
      if e.signaled then e.(signaled := !e.auto, passed := e.passed + 1)
      else if timeout == 0 then e
      else e.(w := Join(e.w, t, timeout))
    case Signal =>
      if e.signaled then e.(supply := e.supply + 1, lost := e.lost + 1)
      else if e.auto then e.(supply := e.supply + 1, signaled := e.w.list == [], w := Grant(e.w))
      else e.(supply := e.supply + 1, signaled := true, w := GrantAll(e.w))
    case Unsignal => e.(signaled := false, lost := e.lost + Bit(e.signaled))
    case Timeout(t) => e.(w := Expire(e.w, t))
    case Wakeup(t) =>
      e.(w := Leaves(e.w, t), passed := if e.w.woken[t] == NO_ERROR then e.passed + 1 else e.passed)
  }

  /** The code with which a wait returns in this step, if one does. */
  function Returned(e: Ev, a: Act): Option<int>
    requires Can(e, a)
  {
    match a
    case Wait(t, timeout) =>
      if e.signaled then Some(NO_ERROR) else if timeout == 0 then Some(ERR_TIMED_OUT) else None
    case Wakeup(t) => Some(e.w.woken[t])
    case Signal => None
    case Unsignal => None
    case Timeout(_) => None
  }

  /** The step is a signal to an event that is signalled already, or takes a signal back. */
  predicate Wastes(e: Ev, a: Act) {
    e.signaled && (a.Signal? || a.Unsignal?)
  }

  /** A signalled event has no waiters, and each signal given to an auto-unsignal event went to one wait, is
      still pending, or was lost. */
  ghost predicate EvOk(e: Ev) {
    && Ok(e.w) && (e.signaled ==> e.w.list == [])
    && (e.auto ==> e.passed + |Granted(e.w)| + Bit(e.signaled) + e.lost == e.supply)
  }

  lemma DoOk(e: Ev, a: Act)
    requires EvOk(e) && Can(e, a)
    ensures EvOk(Do(e, a))
  {
    match a
    case Wait(t, timeout) =>
      if !e.signaled {
        JoinOk(e.w, t, timeout);
      }
    case Signal =>
      GrantAllOk(e.w);
      if e.w.list != [] {
        GrantOk(e.w);
      }
    case Unsignal =>
    case Timeout(t) => ExpireOk(e.w, t);
    case Wakeup(t) => LeavesOk(e.w, t);
  }

  predicate Legal(e: Ev, acts: seq<Act>)
    decreases |acts|
  {
    acts == [] || (Can(e, acts[0]) && Legal(Do(e, acts[0]), acts[1..]))
  }

  function After(e: Ev, acts: seq<Act>): Ev
    requires Legal(e, acts)
    decreases |acts|
  {
    if acts == [] then e else After(Do(e, acts[0]), acts[1..])
  }

  function Signals(acts: seq<Act>): nat {
    if acts == [] then 0 else Bit(acts[0].Signal?) + Signals(acts[1..])
  }

  lemma {:induction false} AfterOk(e: Ev, acts: seq<Act>)
    requires EvOk(e) && Legal(e, acts)
    ensures EvOk(After(e, acts)) && After(e, acts).supply == e.supply + Signals(acts) && After(e, acts).auto == e.auto
    ensures After(e, acts).passed == e.passed + Successes(e, acts) && After(e, acts).lost == e.lost + Wasted(e, acts)
    decreases |acts|
  {
    if acts != [] {
      DoOk(e, acts[0]);
      AfterOk(Do(e, acts[0]), acts[1..]);
    }
  }

  /** The number of waits that return success in a run. */
  function Successes(e: Ev, acts: seq<Act>): nat
    requires Legal(e, acts)
    decreases |acts|
  {
    if acts == [] then 0
    else Bit(Returned(e, acts[0]) == Some(NO_ERROR)) + Successes(Do(e, acts[0]), acts[1..])
  }

  /** The number of signals that go to nobody in a run. */
  function Wasted(e: Ev, acts: seq<Act>): nat
    requires Legal(e, acts)
    decreases |acts|
  {
    if acts == [] then 0 else Bit(Wastes(e, acts[0])) + Wasted(Do(e, acts[0]), acts[1..])
  }

  /** In every interleaving a signalled event has no queued waiter; the waits that return success on an auto-unsignal
      event, counting those woken and not yet run, are exactly as many as its initial signal and the signal calls, less
      one that is pending and those that found the event signalled or were taken back. */
  lemma EveryRun(initial: bool, auto: bool, acts: seq<Act>)
    requires Legal(Fresh(initial, auto), acts)
    ensures var e, n := After(Fresh(initial, auto), acts), Successes(Fresh(initial, auto), acts);
            && (e.signaled ==> e.w.list == [])
            && (auto ==> n + |Granted(e.w)| + Bit(e.signaled) + Wasted(Fresh(initial, auto), acts)
                         == Bit(initial) + Signals(acts))
  {
    AfterOk(Fresh(initial, auto), acts);
  }

  /** A wait on a signalled event succeeds, and uses the signal up if the event unsignals itself; otherwise the thread
      queues, last in line, or fails at once. */
  lemma WaitLaw(e: Ev, t: nat, timeout: nat)
    requires EvOk(e) && Can(e, Wait(t, timeout))
    ensures var e', r := Do(e, Wait(t, timeout)), Returned(e, Wait(t, timeout));
            && (r == Some(NO_ERROR) <==> e.signaled)
            && (r == Some(NO_ERROR) ==> (e'.signaled <==> !e.auto) && e'.w == e.w)
            && (r == None ==> && timeout != 0 && !e'.signaled && e'.w.list == e.w.list + [t]
                              && (t in e'.w.timed <==> timeout != INFINITE_TIME))
            && (r.Some? && r != Some(NO_ERROR) ==> r == Some(ERR_TIMED_OUT) && timeout == 0 && e' == e)
  {
  }

  /** A signal to an event that is not signalled releases the first waiter of an auto-unsignal event and every waiter of
      another; it stays pending unless an auto-unsignal event gave it to a waiter.  An unsignal takes it back. */
  lemma SignalLaw(e: Ev)
    requires EvOk(e)
    ensures var e' := Do(e, Signal);
            && (e.signaled ==> e'.signaled && e'.w == e.w)
            && (!e.signaled && e.auto ==>
                  if e.w.list == [] then e'.signaled && e'.w == e.w
                  else && !e'.signaled && e'.w.list == e.w.list[1..] && Late(e'.w) == Late(e.w)
                       && Granted(e'.w) == Granted(e.w) + {e.w.list[0]})
            && (!e.signaled && !e.auto ==> && e'.signaled && e'.w.list == [] && Late(e'.w) == Late(e.w)
                                           && Granted(e'.w) == Granted(e.w) + Elems(e.w.list))
    ensures !Do(e, Unsignal).signaled && Do(e, Unsignal).w == e.w
  {
    GrantAllOk(e.w);
    if e.w.list != [] {
      GrantOk(e.w);
    }
  }

  /** A timeout takes a queued thread out of the line and fails it, and comes too late for one that was released. */
  lemma TimeoutLaw(e: Ev, t: nat)
    requires EvOk(e) && Can(e, Timeout(t))
    ensures var e' := Do(e, Timeout(t));
            && t !in e'.w.list && Granted(e'.w) == Granted(e.w) && e'.signaled == e.signaled
            && (forall u :: u in e.w.list && u != t ==> u in e'.w.list)
            && (if t in e.w.list then t in e'.w.woken && e'.w.woken[t] == ERR_TIMED_OUT else e' == e)
  {
    ExpireOk(e.w, t);
    if t in e.w.list {
      RemoveKeeps(e.w.list, IndexOf(e.w.list, t), t);
    }
  }

  /** Once signalled, an event without auto-unsignal lets everyone through until it is unsignalled. */
  lemma {:induction false} StaysOpen(e: Ev, acts: seq<Act>)
    requires EvOk(e) && !e.auto && e.signaled && Legal(e, acts)
    requires forall i :: 0 <= i < |acts| ==> acts[i] != Unsignal
    ensures var e' := After(e, acts); e'.signaled && e'.w.list == []
    decreases |acts|
  {
    if acts != [] {
      DoOk(e, acts[0]);
      assert forall i :: 0 <= i < |acts[1..]| ==> acts[1..][i] == acts[i + 1];
      StaysOpen(Do(e, acts[0]), acts[1..]);
    }
  }

  /** The signal that opens such an event releases every thread that was waiting, with success. */
  lemma SignalReleasesAll(e: Ev)
    requires EvOk(e) && !e.auto && !e.signaled
    ensures var e' := Do(e, Signal);
            && e'.w.list == [] && Granted(e'.w) == Granted(e.w) + Elems(e.w.list) && Late(e'.w) == Late(e.w)
  {
    GrantAllOk(e.w);
  }

  /** event_t, over the scheduler `k` and its wait queue `q`. */
  class Event {
    const k: Scheduler
    const q: nat
    var signaled: bool
    const auto: bool
    ghost var inside: set<nat>
    ghost var timed: set<nat>
    ghost var supply: nat
    ghost var passed: nat
    ghost var lost: nat

    ghost predicate Ready()
      reads this, k
    {
      k.Valid() && Confined(k.View(), q, inside)
    }

    ghost function View(): Ev
      reads this, k
      requires Ready()
    {
      Ev(signaled, auto, Seen(k.View(), q, inside, timed), supply, passed, lost)
    }

    ghost predicate Valid()
      reads this, k
    {
      Ready() && EvOk(View())
    }

    /** event_init */
    constructor (k: Scheduler, q: nat, initial: bool, auto: bool)
      requires k.Valid() && q in k.waits && k.waits[q].list == []
      ensures Valid() && this.k == k && this.q == q && View() == Fresh(initial, auto)
    {
      this.k, this.q, this.auto := k, q, auto;
      signaled, inside, timed, supply, passed, lost := initial, {}, {}, Bit(initial), 0, 0;
    }

    /** event_wait_timeout by the current thread of `c`, up to its return or to its going to sleep (None). */
    method WaitTimeout(c: nat, timeout: nat) returns (r: Option<int>)
      requires Valid() && Enabled(k.View(), Block(c, q)) && Can(View(), Wait(k.current[c], timeout))
      modifies this, k
      ensures Valid() && View() == Do(old(View()), Wait(old(k.current[c]), timeout))
      ensures k.View() == if r == None then Next(old(k.View()), Block(c, q)) else old(k.View())
      ensures r == if old(signaled) then Some(NO_ERROR) else if timeout == 0 then Some(ERR_TIMED_OUT) else None
      ensures r == Returned(old(View()), Wait(old(k.current[c]), timeout))
      ensures passed == old(passed) + Bit(r == Some(NO_ERROR)) && lost == old(lost) && supply == old(supply)
      ensures signaled == (old(signaled) && !auto)
    {
      DoOk(View(), Wait(k.current[c], timeout));
      if signaled {
        if auto {
          signaled := false;
        }
        passed := passed + 1;
        return Some(NO_ERROR);
      } else {
        r := Sleep(c, timeout);
        return;
      }
    }

    /** Block the current thread on the event's queue, unless its timeout is zero. */
    method Sleep(c: nat, timeout: nat) returns (r: Option<int>)
      requires Ready() && Enabled(k.View(), Block(c, q)) && k.current[c] !in inside
      modifies k, this`inside, this`timed
      ensures Ready()
      ensures if timeout == 0 then r == Some(ERR_TIMED_OUT) && k.View() == old(k.View()) && View() == old(View())
              else && r == None && k.View() == Next(old(k.View()), Block(c, q))
                   && View() == old(View()).(w := Join(old(View()).w, old(k.current[c]), timeout))
    {
      ghost var s, w, t := k.View(), View().w, k.current[c];
      BlockSeen(s, c, q, inside, timed, timeout);
      r := k.WaitQueueBlock(c, q, timeout);
      if r == None {
        inside := inside + {t};
        timed := Join(w, t, timeout).timed;
      }
    }

    /** The rest of event_wait_timeout, when the thread runs again. */
    method WaitWoken(c: nat) returns (r: int)
      requires Valid() && OnCpu(k.View(), c) && Can(View(), Wakeup(k.current[c]))
      modifies this
      ensures Valid() && View() == Do(old(View()), Wakeup(k.current[c]))
      ensures r == old(View()).w.woken[k.current[c]] && Some(r) == Returned(old(View()), Wakeup(k.current[c]))
      ensures passed == old(passed) + Bit(r == NO_ERROR)
    {
      ghost var e := View();
      var t := k.current[c];
      DoOk(e, Wakeup(t));
      inside := inside - {t};
      r := k.threads[t].blockRet;
      assert Here(k.View(), q, t) && Seen(k.View(), q, inside, timed) == Leaves(e.w, t);
      if r == NO_ERROR {
        passed := passed + 1;
      }
    }

    /** event_signal */
    method EventSignal(c: nat, resched: bool) returns (r: int)
      requires Valid() && Enabled(k.View(), WakeOne(c, q, resched, NO_ERROR))
      modifies this, k
      ensures Valid() && View() == Do(old(View()), Signal) && r == NO_ERROR
      ensures supply == old(supply) + 1 && passed == old(passed) && lost == old(lost) + Bit(old(signaled))
    {
      DoOk(View(), Signal);
      supply := supply + 1;
      if !signaled {
        if auto {
          var n := WakeFirst(c, resched);
          if n <= 0 {
            signaled := true;
          }
          return NO_ERROR;
        } else {
          signaled := true;
          WakeAll(c, resched);
          return NO_ERROR;
        }
      } else {
        lost := lost + 1;
        return NO_ERROR;
      }
    }

    /** Wake the first waiter, if there is one. */
    method WakeFirst(c: nat, resched: bool) returns (n: nat)
      requires Ready() && Enabled(k.View(), WakeOne(c, q, resched, NO_ERROR))
      modifies k
      ensures Ready() && View() == old(View()).(w := Grant(old(View()).w))
      ensures n == if old(View()).w.list != [] then 1 else 0
    {
      WakeOneSeen(k.View(), c, q, resched, inside, timed);
      n := k.WaitQueueWakeOne(c, q, resched, NO_ERROR);
    }

    /** Wake every waiter. */
    method WakeAll(c: nat, resched: bool)
      requires Ready() && Enabled(k.View(), Step.WakeAll(c, q, resched, NO_ERROR))
      modifies k
      ensures Ready() && View() == old(View()).(w := GrantAll(old(View()).w))
    {
      WakeAllSeen(k.View(), c, q, resched, inside, timed);
      var n := k.WaitQueueWakeAll(c, q, resched, NO_ERROR);
    }

    /** event_unsignal */
    method EventUnsignal() returns (r: int)
      requires Valid()
      modifies this
      ensures Valid() && View() == Do(old(View()), Unsignal) && r == NO_ERROR
    {
      DoOk(View(), Unsignal);
      lost := lost + Bit(signaled);
      signaled := false;
      return NO_ERROR;
    }

    /** wait_queue_timeout_handler for a thread in a timed wait. */
    method TimeoutHandler(t: nat) returns (resched: bool)
      requires Valid() && Can(View(), Timeout(t))
      modifies k
      ensures Valid() && View() == Do(old(View()), Timeout(t))
      ensures resched <==> t in old(View()).w.list
    {
      ghost var s, e := k.View(), View();
      DoOk(e, Timeout(t));
      assert Here(s, q, t);
      TimeoutSeen(s, t, q, inside, timed);
      EvictFate(s, t, ERR_TIMED_OUT, t);
      if t in k.waits[q].list {
        WaiterFate(s, q, t);
      }
      var st := k.UnblockFromWaitQueue(t, ERR_TIMED_OUT);
      assert View() == Do(e, Timeout(t));
      return st >= NO_ERROR;
    }
  }
}
