/** kernel/mutex.c.  An acquire that has to wait is two steps, going to sleep and running again; in between
    a release may hand the mutex over or the timeout may take the waiter off the queue. */
module Mutexes {
  import opened Arith
  import opened Sched
  import opened Waiters
  import opened Effects
  import opened Kernel

  /** `owning` holds the threads whose acquire has returned success and that have not released since. */
  datatype Lock = Lock(count: int, holder: Option<nat>, w: Waiters, owning: set<nat>)

  datatype Act = Acquire(t: nat, timeout: nat) | Timeout(t: nat) | Wakeup(t: nat) | Unlock(t: nat)

  const Unlocked: Lock := Lock(0, None, NoWaiters, {})

  /** A thread acquires a mutex it is not using already and releases one that it owns. */
  predicate Can(l: Lock, a: Act) {
    match a
    case Acquire(t, _) => t !in l.owning && !Inside(l.w, t)
    case Timeout(t) => Inside(l.w, t) && t in l.w.timed
    case Wakeup(t) => t in l.w.woken
    case Unlock(t) => t in l.owning
  }

  function Do(l: Lock, a: Act): Lock
    requires Can(l, a)
  {
    match a
    case Acquire(t, timeout) =>
      if l.count == 0 then l.(count := 1, holder := Some(t), owning := l.owning + {t})
      else if timeout == 0 then l
      else l.(count := l.count + 1, w := Join(l.w, t, timeout))
    case Timeout(t) => l.(w := Expire(l.w, t))
    case Wakeup(t) =>
      if l.w.woken[t] == NO_ERROR then l.(holder := Some(t), w := Leaves(l.w, t), owning := l.owning + {t})
      else l.(count := l.count - 1, w := Leaves(l.w, t))
    case Unlock(t) =>
      l.(count := l.count - 1, holder := None, w := if l.count > 1 then Grant(l.w) else l.w, owning := l.owning - {t})
  }

  /** The code with which a call of mutex_acquire_timeout returns in this step, if it does. */
  function Returned(l: Lock, a: Act): Option<int>
    requires Can(l, a)
  {
    match a
    case Acquire(t, timeout) =>
      if l.count == 0 then Some(NO_ERROR) else if timeout == 0 then Some(ERR_TIMED_OUT) else None
    case Wakeup(t) => Some(l.w.woken[t])
    case Timeout(_) => None
    case Unlock(_) => None
  }

  /** Every thread the mutex belongs to, counting one that was handed it and has not run yet. */
  function Owners(l: Lock): set<nat> {
    l.owning + Granted(l.w)
  }

  ghost predicate LockOk(l: Lock) {
    && Ok(l.w) && (forall t :: t in l.owning ==> !Inside(l.w, t))
    && l.owning == (if l.holder.Some? then {l.holder.value} else {})
    && Held(l) + |Granted(l.w)| <= 1
    && l.count == Held(l) + |Granted(l.w)| + |l.w.list| + |Late(l.w)|
  }

  function Held(l: Lock): nat {
    if l.holder.Some? then 1 else 0
  }

  lemma AcquireOk(l: Lock, t: nat, timeout: nat)
    requires LockOk(l) && Can(l, Acquire(t, timeout))
    ensures LockOk(Do(l, Acquire(t, timeout)))
  {
    if l.count != 0 {
      JoinOk(l.w, t, timeout);
    }
  }

  lemma WakeupOk(l: Lock, t: nat)
    requires LockOk(l) && Can(l, Wakeup(t))
    ensures LockOk(Do(l, Wakeup(t)))
  {
    LeavesOk(l.w, t);
    if l.w.woken[t] == NO_ERROR {
      assert |Granted(l.w)| >= 1 by {
        assert t in Granted(l.w);
      }
      assert Held(l) == 0;
    }
  }

  lemma UnlockOk(l: Lock, t: nat)
    requires LockOk(l) && Can(l, Unlock(t))
    ensures LockOk(Do(l, Unlock(t)))
  {
    assert l.owning == {t} && l.holder == Some(t);
    if l.w.list != [] {
      GrantOk(l.w);
    }
  }

  lemma DoOk(l: Lock, a: Act)
    requires LockOk(l) && Can(l, a)
    ensures LockOk(Do(l, a))
  {
    match a
    case Acquire(t, timeout) => AcquireOk(l, t, timeout);
    case Timeout(t) => ExpireOk(l.w, t);
    case Wakeup(t) => WakeupOk(l, t);
    case Unlock(t) => UnlockOk(l, t);
  }

  predicate Legal(l: Lock, acts: seq<Act>)
    decreases |acts|
  {
    acts == [] || (Can(l, acts[0]) && Legal(Do(l, acts[0]), acts[1..]))
  }

  function After(l: Lock, acts: seq<Act>): Lock
    requires Legal(l, acts)
    decreases |acts|
  {
    if acts == [] then l else After(Do(l, acts[0]), acts[1..])
  }

  lemma {:induction false} AfterOk(l: Lock, acts: seq<Act>)
    requires LockOk(l) && Legal(l, acts)
    ensures LockOk(After(l, acts))
    decreases |acts|
  {
    if acts != [] {
      DoOk(l, acts[0]);
      AfterOk(Do(l, acts[0]), acts[1..]);
    }
  }

  /** A run with one more step. */
  lemma {:induction false} Snoc(l: Lock, acts: seq<Act>, a: Act)
    ensures Legal(l, acts + [a]) <==> Legal(l, acts) && Can(After(l, acts), a)
    ensures Legal(l, acts + [a]) ==> After(l, acts + [a]) == Do(After(l, acts), a)
    decreases |acts|
  {
    if acts == [] {
      assert acts + [a] == [a] && [a][1..] == [];
    } else {
      assert (acts + [a])[0] == acts[0] && (acts + [a])[1..] == acts[1..] + [a];
      if Can(l, acts[0]) {
        Snoc(Do(l, acts[0]), acts[1..], a);
      }
    }
  }

  lemma {:induction false} PrefixLegal(l: Lock, acts: seq<Act>, i: nat)
    requires Legal(l, acts) && i <= |acts|
    ensures Legal(l, acts[..i])
    decreases |acts| - i
  {
    if i < |acts| {
      PrefixLegal(l, acts, i + 1);
      assert acts[..i + 1] == acts[..i] + [acts[i]];
      Snoc(l, acts[..i], acts[i]);
    } else {
      assert acts[..i] == acts;
    }
  }

  /** The state before step `i` of a run from the unlocked mutex. */
  function At(acts: seq<Act>, i: nat): Lock
    requires Legal(Unlocked, acts) && i <= |acts|
  {
    PrefixLegal(Unlocked, acts, i);
    After(Unlocked, acts[..i])
  }

  lemma AtStep(acts: seq<Act>, i: nat)
    requires Legal(Unlocked, acts) && i < |acts|
    ensures LockOk(At(acts, i)) && Can(At(acts, i), acts[i]) && At(acts, i + 1) == Do(At(acts, i), acts[i])
  {
    var before := acts[..i];
    PrefixLegal(Unlocked, acts, i + 1);
    assert acts[..i + 1] == before + [acts[i]];
    Snoc(Unlocked, before, acts[i]);
    AfterOk(Unlocked, before);
  }

  /** Step `i` is an acquire by `t` that returns success. */
  predicate Acquires(acts: seq<Act>, i: nat, t: nat)
    requires Legal(Unlocked, acts) && i < |acts|
  {
    AtStep(acts, i);
    (acts[i].Acquire? || acts[i].Wakeup?) && acts[i].t == t && Returned(At(acts, i), acts[i]) == Some(NO_ERROR)
  }

  /** An acquire returns success only if no other thread has the mutex, and then the mutex is the caller's. */
  lemma SuccessTakes(l: Lock, a: Act)
    requires LockOk(l) && Can(l, a) && Returned(l, a) == Some(NO_ERROR)
    ensures l.owning == {} && Do(l, a).owning == {a.t} && Do(l, a).holder == Some(a.t) && Do(l, a).count >= 1
    ensures Owners(Do(l, a)) == {a.t}
  {
    DoOk(l, a);
    if a.Wakeup? {
      assert a.t in Granted(l.w);
    }
    assert a.t in Do(l, a).owning;
    Alone(Do(l, a), a.t);
  }

  lemma Alone(l: Lock, t: nat)
    requires LockOk(l) && t in l.owning
    ensures Owners(l) == {t} && l.holder == Some(t) && l.count >= 1
  {
    assert Held(l) == 1;
    assert Granted(l.w) == {};
  }

  /** A thread whose acquire returned success has the mutex, alone, until it releases it itself. */
  lemma {:induction false} SuccessKeeps(acts: seq<Act>, i: nat, j: nat, t: nat)
    requires Legal(Unlocked, acts) && i < j <= |acts| && Acquires(acts, i, t)
    requires forall k :: i < k < j ==> acts[k] != Unlock(t)
    ensures Owners(At(acts, j)) == {t} && At(acts, j).owning == {t}
    ensures At(acts, j).holder == Some(t) && At(acts, j).count >= 1
    decreases j
  {
    AtStep(acts, j - 1);
    DoOk(At(acts, j - 1), acts[j - 1]);
    if j == i + 1 {
      SuccessTakes(At(acts, i), acts[i]);
    } else {
      SuccessKeeps(acts, i, j - 1, t);
      OwnerStays(At(acts, j - 1), acts[j - 1], t);
      Alone(At(acts, j), t);
    }
  }

  lemma OwnerStays(l: Lock, a: Act, t: nat)
    requires LockOk(l) && Can(l, a) && t in l.owning && a != Unlock(t)
    ensures t in Do(l, a).owning
  {
    if Returned(l, a) == Some(NO_ERROR) {
      SuccessTakes(l, a);
    }
  }

  /** Mutual exclusion: between two acquires that return success the first thread has released the mutex.  In every
      interleaving, with every mix of timeouts. */
  lemma MutualExclusion(acts: seq<Act>, i: nat, j: nat, t: nat, u: nat)
    requires Legal(Unlocked, acts) && i < j < |acts| && Acquires(acts, i, t) && Acquires(acts, j, u)
    ensures exists k :: i < k < j && acts[k] == Unlock(t)
  {
    if forall k :: i < k < j ==> acts[k] != Unlock(t) {
      SuccessKeeps(acts, i, j, t);
      AtStep(acts, j);
      SuccessTakes(At(acts, j), acts[j]);
    }
  }

  /** The mutex belongs to at most one thread, counting one that was handed it, and the count is the owner plus the
      queued waiters plus the timed-out waiters that have yet to back out. */
  lemma CountExact(acts: seq<Act>)
    requires Legal(Unlocked, acts)
    ensures var l := After(Unlocked, acts);
            && |Owners(l)| <= 1 && l.count == |Owners(l)| + |l.w.list| + |Late(l.w)|
            && l.owning == if l.holder.Some? then {l.holder.value} else {}
  {
    AfterOk(Unlocked, acts);
    var l := After(Unlocked, acts);
    assert l.owning !! Granted(l.w);
    assert |l.owning| == Held(l);
  }

  /** When an acquire succeeds at once, fails at once, or queues, last in line. */
  lemma AcquireLaw(l: Lock, t: nat, timeout: nat)
    requires LockOk(l) && Can(l, Acquire(t, timeout))
    ensures var l', r := Do(l, Acquire(t, timeout)), Returned(l, Acquire(t, timeout));
            && (r == Some(NO_ERROR) <==> Owners(l) == {} && l.w.list == [] && Late(l.w) == {})
            && (r == None ==> timeout != 0 && l'.w.list == l.w.list + [t] && Owners(l') == Owners(l))
            && (r.Some? && r != Some(NO_ERROR) ==> r == Some(ERR_TIMED_OUT) && timeout == 0 && l' == l)
            && (t in l'.w.timed <==> if r == None then timeout != INFINITE_TIME else t in l.w.timed)
  {
    assert Late(l.w) == {} <==> |Late(l.w)| == 0;
    assert Owners(l) == {} <==> Held(l) + |Granted(l.w)| == 0 by {
      assert Granted(l.w) == {} <==> |Granted(l.w)| == 0;
    }
    if l.count != 0 {
      JoinOk(l.w, t, timeout);
    }
  }

  /** A release hands the mutex to the first waiter, and to nobody if there is none. */
  lemma UnlockLaw(l: Lock, t: nat)
    requires LockOk(l) && Can(l, Unlock(t))
    ensures var l' := Do(l, Unlock(t));
            && Owners(l) == {t} && l'.holder == None && l'.owning == {}
            && Owners(l') == (if l.w.list == [] then {} else {l.w.list[0]})
            && l'.w.list == (if l.w.list == [] then [] else l.w.list[1..]) && Late(l'.w) == Late(l.w)
  {
    Alone(l, t);
    if l.w.list != [] {
      GrantOk(l.w);
    }
  }

  /** A timeout takes a queued thread out of the line and fails it, and comes too late for one that was handed the
      mutex. */
  lemma TimeoutLaw(l: Lock, t: nat)
    requires LockOk(l) && Can(l, Timeout(t))
    ensures var l' := Do(l, Timeout(t));
            && Owners(l') == Owners(l) && t !in l'.w.list && l'.count == l.count
            && (forall u :: u in l.w.list && u != t ==> u in l'.w.list)
            && (if t in l.w.list then t in l'.w.woken && l'.w.woken[t] == ERR_TIMED_OUT else l' == l)
  {
    ExpireOk(l.w, t);
    if t in l.w.list {
      RemoveKeeps(l.w.list, IndexOf(l.w.list, t), t);
    }
  }

  /** A thread whose wait failed backs out when it runs. */
  lemma BackOutLaw(l: Lock, t: nat)
    requires LockOk(l) && Can(l, Wakeup(t)) && Returned(l, Wakeup(t)) != Some(NO_ERROR)
    ensures var l' := Do(l, Wakeup(t));
            && Returned(l, Wakeup(t)) == Some(ERR_TIMED_OUT) && Owners(l') == Owners(l)
            && l'.count == l.count - 1 && !Inside(l'.w, t) && l'.w.list == l.w.list
  {
    LeavesOk(l.w, t);
  }

  /** Someone will hand the mutex on, if anyone waits for it. */
  predicate Served(l: Lock) {
    l.w.list != [] ==> Owners(l) != {}
  }

  /** An acquire that queues behind nobody: the count is still up only because a timed-out waiter has not run
      yet. */
  predicate Strands(l: Lock, a: Act) {
    a.Acquire? && a.timeout != 0 && l.count != 0 && Owners(l) == {}
  }

  /** That acquire is the one way to leave a waiter with no owner to wake it. */
  lemma ServedStep(l: Lock, a: Act)
    requires LockOk(l) && Served(l) && Can(l, a)
    ensures Served(Do(l, a)) <==> !Strands(l, a)
  {
    match a
    case Acquire(t, timeout) =>
      if l.count != 0 {
        JoinOk(l.w, t, timeout);
      }
    case Timeout(t) => ExpireOk(l.w, t);
    case Wakeup(t) => LeavesOk(l.w, t);
    case Unlock(t) => ServedUnlock(l, t);
  }

  lemma ServedUnlock(l: Lock, t: nat)
    requires LockOk(l) && Served(l) && Can(l, Unlock(t))
    ensures Served(Do(l, Unlock(t)))
  {
    assert l.owning == {t};
    if l.w.list != [] {
      GrantOk(l.w);
    }
  }

  ghost predicate AlwaysServed(l: Lock, acts: seq<Act>)
    requires Legal(l, acts)
    decreases |acts|
  {
    Served(l) && (acts != [] ==> AlwaysServed(Do(l, acts[0]), acts[1..]))
  }

  ghost predicate NeverStrands(l: Lock, acts: seq<Act>)
    requires Legal(l, acts)
    decreases |acts|
  {
    acts != [] ==> !Strands(l, acts[0]) && NeverStrands(Do(l, acts[0]), acts[1..])
  }

  /** A run keeps every waiter served if and only if no acquire in it queues behind nobody. */
  lemma {:induction false} ServedRun(l: Lock, acts: seq<Act>)
    requires LockOk(l) && Served(l) && Legal(l, acts)
    ensures AlwaysServed(l, acts) <==> NeverStrands(l, acts)
    decreases |acts|
  {
    if acts != [] {
      DoOk(l, acts[0]);
      ServedStep(l, acts[0]);
      if Served(Do(l, acts[0])) {
        ServedRun(Do(l, acts[0]), acts[1..]);
      }
    }
  }

  predicate Patient(acts: seq<Act>) {
    forall i :: 0 <= i < |acts| && acts[i].Acquire? ==> acts[i].timeout == 0 || acts[i].timeout == INFINITE_TIME
  }

  /** With zero and infinite timeouts only, a mutex with waiters always has an owner. */
  lemma {:induction false} PatientServed(l: Lock, acts: seq<Act>)
    requires LockOk(l) && Served(l) && l.w.timed == {} && Legal(l, acts) && Patient(acts)
    ensures AlwaysServed(l, acts)
    decreases |acts|
  {
    if acts != [] {
      assert Late(l.w) == {};
      DoOk(l, acts[0]);
      assert !Strands(l, acts[0]);
      ServedStep(l, acts[0]);
      assert Patient(acts[1..]);
      PatientServed(Do(l, acts[0]), acts[1..]);
    }
  }

  /** Thread 1 holds, thread 2 waits with a timeout that fires, thread 1 releases before thread 2 has run, and
      thread 3 acquires: it queues although the mutex belongs to nobody. */
  lemma StrandedExample()
    ensures var acts := [Acquire(1, INFINITE_TIME), Acquire(2, 10), Timeout(2), Unlock(1),
                         Acquire(3, INFINITE_TIME), Wakeup(2)];
            && Legal(Unlocked, acts)
            && var l := After(Unlocked, acts);
            && Owners(l) == {} && l.w.list == [3] && 3 !in l.w.timed
  {
    var late := map[2 := ERR_TIMED_OUT];
    var l1 := Lock(1, Some(1), NoWaiters, {1});
    var l2 := Lock(2, Some(1), Waiters([2], map[], {2}), {1});
    var l3 := Lock(2, Some(1), Waiters([], late, {2}), {1});
    var rest := [Unlock(1), Acquire(3, INFINITE_TIME), Wakeup(2)];
    StrandedEnd(l3, late);
    Before(l2, Timeout(2), l3, rest);
    Before(l1, Acquire(2, 10), l2, [Timeout(2)] + rest);
    Before(Unlocked, Acquire(1, INFINITE_TIME), l1, [Acquire(2, 10)] + ([Timeout(2)] + rest));
    assert [Acquire(1, INFINITE_TIME)] + ([Acquire(2, 10)] + ([Timeout(2)] + rest))
        == [Acquire(1, INFINITE_TIME), Acquire(2, 10), Timeout(2), Unlock(1), Acquire(3, INFINITE_TIME), Wakeup(2)];
  }

  /** The same from the release on. */
  lemma StrandedEnd(l3: Lock, late: map<nat, int>)
    requires late == map[2 := ERR_TIMED_OUT] && l3 == Lock(2, Some(1), Waiters([], late, {2}), {1})
    ensures var acts := [Unlock(1), Acquire(3, INFINITE_TIME), Wakeup(2)];
            && Legal(l3, acts)
            && var l := After(l3, acts);
            && Owners(l) == {} && l.w.list == [3] && 3 !in l.w.timed
  {
    var l4 := Lock(1, None, Waiters([], late, {2}), {});
    var l5 := Lock(2, None, Waiters([3], late, {2}), {});
    var l6 := Lock(1, None, Waiters([3], map[], {2}), {});
    Before(l5, Wakeup(2), l6, []);
    Before(l4, Acquire(3, INFINITE_TIME), l5, [Wakeup(2)]);
    Before(l3, Unlock(1), l4, [Acquire(3, INFINITE_TIME), Wakeup(2)]);
  }

  lemma Before(l: Lock, a: Act, l': Lock, acts: seq<Act>)
    requires Can(l, a) && Do(l, a) == l' && Legal(l', acts)
    ensures Legal(l, [a] + acts) && After(l, [a] + acts) == After(l', acts)
  {
    assert ([a] + acts)[1..] == acts;
  }

  /** A stranded waiter without a timeout waits for ever: from then on nobody ever acquires the mutex. */
  lemma {:induction false} StrandedForever(l: Lock, acts: seq<Act>, t: nat)
    requires LockOk(l) && Legal(l, acts) && Owners(l) == {} && t in l.w.list && t !in l.w.timed
    ensures var l' := After(l, acts); Owners(l') == {} && t in l'.w.list && t !in l'.w.timed
    decreases |acts|
  {
    if acts != [] {
      DoOk(l, acts[0]);
      match acts[0] {
        case Timeout(u) => ExpireOk(l.w, u);
        case Wakeup(u) => LeavesOk(l.w, u); assert u !in Granted(l.w);
        case Acquire(u, timeout) => JoinOk(l.w, u, timeout);
        case Unlock(u) =>
      }
      StrandedForever(Do(l, acts[0]), acts[1..], t);
    }
  }

  /** mutex_t, over the scheduler `k` and its wait queue `q`. */
  class Mutex {
    const k: Scheduler
    const q: nat
    var count: int
    var holder: Option<nat>
    ghost var inside: set<nat>
    ghost var timed: set<nat>
    ghost var owning: set<nat>

    ghost predicate Ready()
      reads this, k
    {
      k.Valid() && Confined(k.View(), q, inside)
    }

    ghost function View(): Lock
      reads this, k
      requires Ready()
    {
      Lock(count, holder, Seen(k.View(), q, inside, timed), owning)
    }

    ghost predicate Valid()
      reads this, k
    {
      Ready() && LockOk(View())
    }

    /** mutex_init */
    constructor (k: Scheduler, q: nat)
      requires k.Valid() && q in k.waits && k.waits[q].list == []
      ensures Valid() && this.k == k && this.q == q && View() == Unlocked
    {
      this.k, this.q := k, q;
      count, holder, inside, timed, owning := 0, None, {}, {}, {};
    }

    /** mutex_acquire_timeout by the current thread of `c`, up to its return or to its going to sleep (None). */
    method AcquireTimeout(c: nat, timeout: nat) returns (r: Option<int>)
      requires Valid() && Enabled(k.View(), Block(c, q)) && Can(View(), Acquire(k.current[c], timeout))
      modifies this, k
      ensures Valid() && View() == Do(old(View()), Acquire(old(k.current[c]), timeout))
      ensures k.View() == if r == None then Next(old(k.View()), Block(c, q)) else old(k.View())
      ensures r == if old(count) == 0 then Some(NO_ERROR) else if timeout == 0 then Some(ERR_TIMED_OUT) else None
      ensures r == Returned(old(View()), Acquire(old(k.current[c]), timeout))
      ensures r == Some(NO_ERROR) <==> old(k.current[c]) in owning
      ensures r == Some(NO_ERROR) ==> holder == Some(old(k.current[c])) && count >= 1
    {
      var t := k.current[c];
      DoOk(View(), Acquire(t, timeout));
      count := count + 1;
      if count > 1 {
        r := Sleep(c, timeout);
        if r == None {
          assert View() == Do(old(View()), Acquire(t, timeout));
          return;
        }
        if r.value < NO_ERROR {
          if r.value == ERR_TIMED_OUT {
            count := count - 1;
          }
          assert View() == Do(old(View()), Acquire(t, timeout));
          return;
        }
      }
      holder := Some(t);
      owning := owning + {t};
      return Some(NO_ERROR);
    }

    /** The wait_queue_block of an acquire. */
    method Sleep(c: nat, timeout: nat) returns (r: Option<int>)
      requires Ready() && Enabled(k.View(), Block(c, q)) && k.current[c] !in inside
      modifies k, this`inside, this`timed
      ensures Ready()
      ensures if timeout == 0 then r == Some(ERR_TIMED_OUT) && k.View() == old(k.View()) && View() == old(View())
              else && r == None && k.View() == Next(old(k.View()), Block(c, q))
                   && View() == old(View()).(w := Join(old(View()).w, old(k.current[c]), timeout))
    {
      ghost var s, w := k.View(), View().w;
      ghost var t := k.current[c];
      BlockSeen(s, c, q, inside, timed, timeout);
      r := k.WaitQueueBlock(c, q, timeout);
      if r == None {
        inside := inside + {t};
        timed := Join(w, t, timeout).timed;
      }
    }

    /** The rest of mutex_acquire_timeout, when the thread runs again. */
    method AcquireWoken(c: nat) returns (r: int)
      requires Valid() && OnCpu(k.View(), c) && Can(View(), Wakeup(k.current[c]))
      modifies this
      ensures Valid() && View() == Do(old(View()), Wakeup(k.current[c]))
      ensures r == old(View()).w.woken[k.current[c]] && Some(r) == Returned(old(View()), Wakeup(k.current[c]))
      ensures r == NO_ERROR <==> k.current[c] in owning
      ensures r == NO_ERROR ==> holder == Some(k.current[c]) && count >= 1
    {
      ghost var l := View();
      var t := k.current[c];
      DoOk(l, Wakeup(t));
      inside := inside - {t};
      r := k.threads[t].blockRet;
      assert Here(k.View(), q, t) && Seen(k.View(), q, inside, timed) == Leaves(l.w, t);
      if r < NO_ERROR {
        if r == ERR_TIMED_OUT {
          count := count - 1;
        }
        assert View() == Do(l, Wakeup(t));
        return;
      }
      holder := Some(t);
      owning := owning + {t};
      assert View() == Do(l, Wakeup(t));
    }

    /** mutex_release by the owner. */
    method Release(c: nat) returns (r: int)
      requires Valid() && Enabled(k.View(), WakeOne(c, q, true, NO_ERROR)) && Can(View(), Unlock(k.current[c]))
      modifies this, k
      ensures Valid() && View() == Do(old(View()), Unlock(old(k.current[c]))) && r == NO_ERROR
      ensures k.View() == if old(k.waits)[q].list == [] then old(k.View())
                          else Next(old(k.View()), WakeOne(c, q, true, NO_ERROR))
    {
      ghost var l := View();
      var t := k.current[c];
      DoOk(l, Unlock(t));
      assert holder == Some(t);
      holder := None;
      owning := owning - {t};
      count := count - 1;
      if count >= 1 {
        Wake(c);
        assert View() == Do(l, Unlock(t));
        return NO_ERROR;
      }
      assert View() == Do(l, Unlock(t));
      return NO_ERROR;
    }

    /** Wake the first waiter, if there is one. */
    method Wake(c: nat)
      requires Ready() && Enabled(k.View(), WakeOne(c, q, true, NO_ERROR))
      modifies k
      ensures Ready() && View() == old(View()).(w := Grant(old(View()).w))
      ensures k.View() == if old(k.waits)[q].list == [] then old(k.View())
                          else Next(old(k.View()), WakeOne(c, q, true, NO_ERROR))
    {
      WakeOneSeen(k.View(), c, q, true, inside, timed);
      WakeFirstFate(k.View(), c, q, true, NO_ERROR, 0);
      var n := k.WaitQueueWakeOne(c, q, true, NO_ERROR);
    }

    /** wait_queue_timeout_handler for a thread in a timed acquire. */
    method TimeoutHandler(t: nat) returns (resched: bool)
      requires Valid() && Can(View(), Timeout(t))
      modifies k
      ensures Valid() && View() == Do(old(View()), Timeout(t))
      ensures resched <==> t in old(View()).w.list
    {
      ghost var s, l := k.View(), View();
      DoOk(l, Timeout(t));
      assert Here(s, q, t);
      TimeoutSeen(s, t, q, inside, timed);
      EvictFate(s, t, ERR_TIMED_OUT, t);
      if t in k.waits[q].list {
        WaiterFate(s, q, t);
      }
      var st := k.UnblockFromWaitQueue(t, ERR_TIMED_OUT);
      return st >= NO_ERROR;
    }
  }
}
