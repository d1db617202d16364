/** A wait queue as the object that owns it sees it: who is queued, who has been released but has not run
    again yet and with which return code, and whose wait has a timeout. */
module Waiters {
  import opened Arith
  import opened Sched

  const INFINITE_TIME: nat := 0xFFFF_FFFF

  datatype Waiters = Waiters(list: seq<nat>, woken: map<nat, int>, timed: set<nat>)

  const NoWaiters: Waiters := Waiters([], map[], {})

  predicate Inside(w: Waiters, t: nat) {
    t in w.list || t in w.woken
  }

  ghost predicate Ok(w: Waiters) {
    && NoDup(w.list) && (forall t :: t in w.list ==> t !in w.woken)
    && (forall t :: t in w.woken ==> w.woken[t] == NO_ERROR || w.woken[t] == ERR_TIMED_OUT)
    && (forall t :: t in w.woken && w.woken[t] == ERR_TIMED_OUT ==> t in w.timed)
  }

  /** Threads released with success that have not run yet. */
  function Granted(w: Waiters): set<nat> {
    set t | t in w.woken && w.woken[t] == NO_ERROR
  }

  /** Threads whose wait timed out that have not run yet. */
  function Late(w: Waiters): set<nat> {
    set t | t in w.woken && w.woken[t] != NO_ERROR
  }

  /** wait_queue_block with a non-zero timeout */
  function Join(w: Waiters, t: nat, timeout: nat): Waiters {
    w.(list := w.list + [t], timed := if timeout == INFINITE_TIME then w.timed - {t} else w.timed + {t})
  }

  /** wait_queue_wake_one with NO_ERROR */
  function Grant(w: Waiters): Waiters {
    if w.list == [] then w else w.(list := w.list[1..], woken := w.woken[w.list[0] := NO_ERROR])
  }

  /** wait_queue_wake_all with NO_ERROR */
  function GrantAll(w: Waiters): Waiters {
    w.(list := [], woken := map t | t in w.woken.Keys + Elems(w.list) :: if t in w.list then NO_ERROR else w.woken[t])
  }

  /** wait_queue_timeout_handler */
  function Expire(w: Waiters, t: nat): Waiters {
    if t !in w.list then w
    else
      var i := IndexOf(w.list, t);
      w.(list := w.list[..i] + w.list[i + 1..], woken := w.woken[t := ERR_TIMED_OUT])
  }

  /** The released thread runs again and leaves the call. */
  function Leaves(w: Waiters, t: nat): Waiters {
    w.(woken := w.woken - {t})
  }

  lemma JoinOk(w: Waiters, t: nat, timeout: nat)
    requires Ok(w) && !Inside(w, t)
    ensures Ok(Join(w, t, timeout)) && |Join(w, t, timeout).list| == |w.list| + 1
    ensures Granted(Join(w, t, timeout)) == Granted(w) && Late(Join(w, t, timeout)) == Late(w)
    ensures forall u :: Inside(Join(w, t, timeout), u) <==> Inside(w, u) || u == t
  {
  }

  lemma GrantOk(w: Waiters)
    requires Ok(w) && w.list != []
    ensures Ok(Grant(w)) && |Grant(w).list| == |w.list| - 1
    ensures Granted(Grant(w)) == Granted(w) + {w.list[0]} && |Granted(Grant(w))| == |Granted(w)| + 1
    ensures Late(Grant(w)) == Late(w) && forall u :: Inside(Grant(w), u) <==> Inside(w, u)
  {
    var t, w' := w.list[0], Grant(w);
    assert t in w.list && t !in w.woken;
    assert forall u :: u in w'.woken <==> u in w.woken || u == t;
    assert Granted(w') == Granted(w) + {t} by {
      assert forall u :: u in Granted(w') <==> u in Granted(w) || u == t;
    }
    assert Late(w') == Late(w) by {
      assert forall u :: u in Late(w') <==> u in Late(w);
    }
    TailOk(w.list);
  }

  lemma TailOk<T>(s: seq<T>)
    requires s != [] && NoDup(s)
    ensures NoDup(s[1..]) && s[0] !in s[1..] && forall x :: x in s[1..] ==> x in s
  {
  }

  lemma GrantAllOk(w: Waiters)
    requires Ok(w)
    ensures Ok(GrantAll(w)) && GrantAll(w).list == [] && Late(GrantAll(w)) == Late(w)
    ensures Granted(GrantAll(w)) == Granted(w) + Elems(w.list)
    ensures |Granted(GrantAll(w))| == |Granted(w)| + |w.list|
  {
    ElemsSize(w.list);
    assert Granted(w) !! Elems(w.list);
  }

  lemma ExpireOk(w: Waiters, t: nat)
    requires Ok(w) && t in w.timed
    ensures Ok(Expire(w, t)) && Granted(Expire(w, t)) == Granted(w)
    ensures t !in w.list ==> Expire(w, t) == w
    ensures t in w.list ==> |Expire(w, t).list| == |w.list| - 1 && Late(Expire(w, t)) == Late(w) + {t}
                            && |Late(Expire(w, t))| == |Late(w)| + 1
    ensures forall u :: u in w.list && u != t ==> u in Expire(w, t).list
    ensures forall u :: Inside(Expire(w, t), u) <==> Inside(w, u)
  {
    if t in w.list {
      var i := IndexOf(w.list, t);
      RemoveKeeps(w.list, i, t);
      forall u | u in w.list && u != t ensures u in Expire(w, t).list {
        RemoveKeeps(w.list, i, u);
      }
      ExpireLate(w, t);
    }
  }

  lemma ExpireLate(w: Waiters, t: nat)
    requires Ok(w) && t in w.list
    ensures Late(Expire(w, t)) == Late(w) + {t} && Granted(Expire(w, t)) == Granted(w)
    ensures forall u :: u in Expire(w, t).list ==> u in w.list
  {
  }

  lemma LeavesOk(w: Waiters, t: nat)
    requires Ok(w) && t in w.woken
    ensures Ok(Leaves(w, t)) && Leaves(w, t).list == w.list
    ensures Granted(Leaves(w, t)) == Granted(w) - {t} && Late(Leaves(w, t)) == Late(w) - {t}
    ensures forall u :: Inside(Leaves(w, t), u) <==> Inside(w, u) && u != t
    ensures |Granted(Leaves(w, t))| == |Granted(w)| - if w.woken[t] == NO_ERROR then 1 else 0
    ensures |Late(Leaves(w, t))| == |Late(w)| - if w.woken[t] == NO_ERROR then 0 else 1
  {
    assert t in Granted(w) <==> w.woken[t] == NO_ERROR;
    assert t in Late(w) <==> w.woken[t] != NO_ERROR;
  }
}
