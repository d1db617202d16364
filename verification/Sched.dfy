/** The scheduler state of kernel/thread.c and what every step under `thread_lock` keeps: each thread is in
    the one place its state names. */
module Sched {
  import opened Arith

  const NUM_PRIORITIES: nat := 32
  const HIGHEST_PRIORITY: nat := 31
  const IDLE_PRIORITY: nat := 0
  const NO_ERROR: int := 0
  const ERR_NOT_BLOCKED: int := -12
  const ERR_TIMED_OUT: int := -13
  const FULL_QUANTUM: int := 5

  datatype State = Suspended | Ready | Running | Blocked | Sleeping | Death

  /** `pinned` and `cpu` are -1 for no CPU; `joinq` is the thread's own `retcode_wait_queue`. */
  datatype Thread = Thread(state: State, priority: nat, quantum: int, pinned: int, cpu: int, isIdle: bool,
                           blockedOn: Option<nat>, blockRet: int, joinq: nat, detached: bool, realTime: bool)

  datatype WaitQueue = WaitQueue(list: seq<nat>, count: int)

  /** Threads and wait queues are named by numbers; the run queue bitmap is the set of its set bits. */
  datatype Sched = Sched(threads: map<nat, Thread>, queues: seq<seq<nat>>, bitmap: set<nat>,
                         waits: map<nat, WaitQueue>, current: seq<nat>, idle: seq<nat>)

  /** Run queue `p`: no thread twice, all of them ready at priority `p`, and its bit set iff it has any. */
  ghost predicate QueueOk(s: Sched, p: nat, loose: set<nat>) {
    if p >= |s.queues| then p !in s.bitmap
    else
      && NoDup(s.queues[p]) && (p in s.bitmap <==> s.queues[p] != [])
      && forall i :: 0 <= i < |s.queues[p]| ==> ReadyAt(s, s.queues[p][i], p) && s.queues[p][i] !in loose
  }

  ghost predicate ReadyAt(s: Sched, t: nat, p: nat) {
    t in s.threads && s.threads[t].state == Ready && s.threads[t].priority == p && !s.threads[t].isIdle
  }

  /** Wait queue `q`: its count is its length, no thread twice, all of them blocked on it. */
  ghost predicate WaitOk(s: Sched, q: nat, loose: set<nat>) {
    q in s.waits ==>
      && s.waits[q].count == |s.waits[q].list| && NoDup(s.waits[q].list)
      && forall i :: 0 <= i < |s.waits[q].list| ==> BlockedAt(s, s.waits[q].list[i], q) && s.waits[q].list[i] !in loose
  }

  ghost predicate BlockedAt(s: Sched, t: nat, q: nat) {
    t in s.threads && s.threads[t].state == Blocked && s.threads[t].blockedOn == Some(q) && !s.threads[t].isIdle
  }

  /** A thread is where its state says, unless it is `loose`: on its way between two places. */
  ghost predicate ThreadOk(s: Sched, t: nat, mid: Option<nat>, loose: set<nat>) {
    t in s.threads ==>
      var th := s.threads[t];
      && th.priority < NUM_PRIORITIES && -1 <= th.pinned < |s.current|
      && (t !in loose ==>
            && (th.state == Ready && !th.isIdle ==> th.priority < |s.queues| && t in s.queues[th.priority])
            && (th.state == Blocked ==> th.blockedOn.Some? && th.blockedOn.value in s.waits
                                        && t in s.waits[th.blockedOn.value].list)
            && (th.state == Running ==> 0 <= th.cpu < |s.current| && s.current[th.cpu] == t && mid != Some(th.cpu))
            && (th.isIdle ==> th.state == Ready || th.state == Running))
  }

  /** CPU `c` runs its current thread, which may run there; CPU `mid` is switching away from its own. */
  ghost predicate CpuOk(s: Sched, c: nat, mid: Option<nat>) {
    c < |s.current| && c < |s.idle| ==>
      var t := s.current[c];
      && t in s.threads && s.threads[t].cpu == c && MayRun(s, t, c)
      && (mid == Some(c) <==> s.threads[t].state != Running)
      && s.idle[c] in s.threads && s.threads[s.idle[c]].isIdle && s.threads[s.idle[c]].pinned == c
      && (s.threads[t].isIdle ==> t == s.idle[c])
  }

  predicate MayRun(s: Sched, t: nat, c: nat)
    requires t in s.threads
  {
    s.threads[t].pinned < 0 || s.threads[t].pinned == c
  }

  ghost predicate Inv(s: Sched, mid: Option<nat>, loose: set<nat>) {
    && |s.queues| == NUM_PRIORITIES && |s.idle| == |s.current|
    && (forall p {:trigger QueueOk(s, p, loose)} :: QueueOk(s, p, loose))
    && (forall q {:trigger WaitOk(s, q, loose)} :: WaitOk(s, q, loose))
    && (forall t {:trigger ThreadOk(s, t, mid, loose)} :: ThreadOk(s, t, mid, loose))
    && (forall c {:trigger CpuOk(s, c, mid)} :: CpuOk(s, c, mid))
  }

  /** Between steps. */
  ghost predicate Steady(s: Sched) {
    Inv(s, None, {})
  }

  function SetThread(s: Sched, t: nat, th: Thread): Sched {
    s.(threads := s.threads[t := th])
  }

  /** insert_in_run_queue_head and insert_in_run_queue_tail */
  function Enqueue(s: Sched, t: nat, head: bool): Sched
    requires t in s.threads && s.threads[t].priority < |s.queues|
  {
    var p := s.threads[t].priority;
    s.(queues := s.queues[p := if head then [t] + s.queues[p] else s.queues[p] + [t]], bitmap := s.bitmap + {p})
  }

  /** list_delete on a run queue, with the bit cleared when the queue is left empty. */
  function Dequeue(s: Sched, p: nat, i: nat): Sched
    requires p < |s.queues| && i < |s.queues[p]|
  {
    var q := s.queues[p][..i] + s.queues[p][i + 1..];
    s.(queues := s.queues[p := q], bitmap := if q == [] then s.bitmap - {p} else s.bitmap)
  }

  /** Append to a wait queue. */
  function WaitEnqueue(s: Sched, t: nat, q: nat): Sched
    requires q in s.waits
  {
    s.(waits := s.waits[q := WaitQueue(s.waits[q].list + [t], s.waits[q].count + 1)])
  }

  /** Remove entry `i` of a wait queue. */
  function WaitRemove(s: Sched, q: nat, i: nat): Sched
    requires q in s.waits && i < |s.waits[q].list|
  {
    var l := s.waits[q].list;
    s.(waits := s.waits[q := WaitQueue(l[..i] + l[i + 1..], s.waits[q].count - 1)])
  }

  lemma RemoveKeeps<T>(l: seq<T>, i: nat, x: T)
    requires i < |l| && NoDup(l)
    ensures NoDup(l[..i] + l[i + 1..]) && l[i] !in l[..i] + l[i + 1..]
    ensures x in l && x != l[i] ==> x in l[..i] + l[i + 1..]
  {
    var r := l[..i] + l[i + 1..];
    forall j | 0 <= j < |r| ensures r[j] == l[if j < i then j else j + 1] {
    }
    if x in l && x != l[i] {
      var n :| 0 <= n < |l| && l[n] == x;
      assert r[if n < i then n else n - 1] == x;
    }
  }

  /** A loose thread may change state; it is in no queue. */
  lemma SetLoose(s: Sched, t: nat, th: Thread, mid: Option<nat>, loose: set<nat>)
    requires Inv(s, mid, loose) && t in loose && t in s.threads
    requires th.priority < NUM_PRIORITIES && th.pinned == s.threads[t].pinned && th.isIdle == s.threads[t].isIdle
    requires th.cpu == s.threads[t].cpu && (th.state == Running <==> s.threads[t].state == Running)
    ensures Inv(SetThread(s, t, th), mid, loose)
  {
    var s' := SetThread(s, t, th);
    forall p ensures QueueOk(s', p, loose) {
      assert QueueOk(s, p, loose);
    }
    forall q ensures WaitOk(s', q, loose) {
      assert WaitOk(s, q, loose);
    }
    forall u ensures ThreadOk(s', u, mid, loose) {
      assert ThreadOk(s, u, mid, loose);
    }
    forall c ensures CpuOk(s', c, mid) {
      assert CpuOk(s, c, mid);
    }
  }

  /** The current thread of a CPU leaves the running state. */
  lemma TakeOff(s: Sched, c: nat, th: Thread, loose: set<nat>)
    requires Inv(s, None, loose) && c < |s.current| && s.current[c] in s.threads && s.current[c] !in loose
    requires th.state != Running && th.priority < NUM_PRIORITIES && th.cpu == c
    requires th.pinned == s.threads[s.current[c]].pinned && th.isIdle == s.threads[s.current[c]].isIdle
    ensures Inv(SetThread(s, s.current[c], th), Some(c), loose + {s.current[c]})
  {
    var t := s.current[c];
    var s' := SetThread(s, t, th);
    assert CpuOk(s, c, None);
    forall p ensures QueueOk(s', p, loose + {t}) {
      assert QueueOk(s, p, loose);
    }
    forall q ensures WaitOk(s', q, loose + {t}) {
      assert WaitOk(s, q, loose);
    }
    forall u ensures ThreadOk(s', u, Some(c), loose + {t}) {
      assert ThreadOk(s, u, None, loose);
    }
    forall d ensures CpuOk(s', d, Some(c)) {
      assert CpuOk(s, d, None);
    }
  }

  /** A loose ready thread goes on the run queue of its priority. */
  lemma EnqueueInv(s: Sched, t: nat, head: bool, mid: Option<nat>, loose: set<nat>)
    requires Inv(s, mid, loose) && t in loose && t in s.threads
    requires s.threads[t].state == Ready && !s.threads[t].isIdle
    ensures s.threads[t].priority < |s.queues| && Inv(Enqueue(s, t, head), mid, loose - {t})
  {
    assert ThreadOk(s, t, mid, loose);
    var s' := Enqueue(s, t, head);
    forall p ensures QueueOk(s', p, loose - {t}) {
      assert QueueOk(s, p, loose);
    }
    forall q ensures WaitOk(s', q, loose - {t}) {
      assert WaitOk(s, q, loose);
    }
    forall u ensures ThreadOk(s', u, mid, loose - {t}) {
      assert ThreadOk(s, u, mid, loose);
    }
    forall c ensures CpuOk(s', c, mid) {
      assert CpuOk(s, c, mid);
    }
  }

  /** A loose thread that belongs on no queue is in its place already. */
  lemma Settle(s: Sched, t: nat, mid: Option<nat>, loose: set<nat>)
    requires Inv(s, mid, loose) && t in loose && t in s.threads
    requires if s.threads[t].isIdle then s.threads[t].state == Ready
             else s.threads[t].state in {Suspended, Sleeping, Death}
    ensures Inv(s, mid, loose - {t})
  {
    forall p ensures QueueOk(s, p, loose - {t}) {
      assert QueueOk(s, p, loose);
    }
    forall q ensures WaitOk(s, q, loose - {t}) {
      assert WaitOk(s, q, loose);
    }
    forall u ensures ThreadOk(s, u, mid, loose - {t}) {
      assert ThreadOk(s, u, mid, loose);
    }
  }

  /** A loose blocked thread goes on the wait queue it names. */
  lemma WaitEnqueueInv(s: Sched, t: nat, q: nat, mid: Option<nat>, loose: set<nat>)
    requires Inv(s, mid, loose) && t in loose && BlockedAt(s, t, q) && q in s.waits
    ensures Inv(WaitEnqueue(s, t, q), mid, loose - {t})
  {
    var s' := WaitEnqueue(s, t, q);
    forall p ensures QueueOk(s', p, loose - {t}) {
      assert QueueOk(s, p, loose);
    }
    forall r ensures WaitOk(s', r, loose - {t}) {
      assert WaitOk(s, r, loose);
    }
    forall u ensures ThreadOk(s', u, mid, loose - {t}) {
      assert ThreadOk(s, u, mid, loose);
    }
    forall c ensures CpuOk(s', c, mid) {
      assert CpuOk(s, c, mid);
    }
  }

  /** A waiter comes off its wait queue. */
  lemma WaitRemoveInv(s: Sched, q: nat, i: nat, mid: Option<nat>, loose: set<nat>)
    requires Inv(s, mid, loose) && q in s.waits && i < |s.waits[q].list|
    ensures BlockedAt(s, s.waits[q].list[i], q) && s.waits[q].list[i] !in loose
    ensures Inv(WaitRemove(s, q, i), mid, loose + {s.waits[q].list[i]})
  {
    assert WaitOk(s, q, loose);
    var l := s.waits[q].list;
    var t := l[i];
    var s' := WaitRemove(s, q, i);
    RemoveKeeps(l, i, t);
    forall p ensures QueueOk(s', p, loose + {t}) {
      assert QueueOk(s, p, loose);
    }
    forall r ensures WaitOk(s', r, loose + {t}) {
      assert WaitOk(s, r, loose);
      WaitRemoveOk(s, q, i, r, loose);
    }
    forall u ensures ThreadOk(s', u, mid, loose + {t}) {
      assert ThreadOk(s, u, mid, loose);
      RemoveKeeps(l, i, u);
    }
    forall c ensures CpuOk(s', c, mid) {
      assert CpuOk(s, c, mid);
    }
  }

  lemma WaitRemoveOk(s: Sched, q: nat, i: nat, r: nat, loose: set<nat>)
    requires q in s.waits && i < |s.waits[q].list| && WaitOk(s, q, loose) && WaitOk(s, r, loose)
    ensures WaitOk(WaitRemove(s, q, i), r, loose + {s.waits[q].list[i]})
  {
    var l := s.waits[q].list;
    var s' := WaitRemove(s, q, i);
    RemoveKeeps(l, i, l[i]);
    if r == q {
      forall j | 0 <= j < |s'.waits[q].list|
        ensures BlockedAt(s', s'.waits[q].list[j], q) && s'.waits[q].list[j] !in loose + {l[i]}
      {
        assert s'.waits[q].list[j] == l[if j < i then j else j + 1];
      }
    }
  }

  /** Index of the first thread of a queue that may run on `c`. */
  function FirstAllowed(s: Sched, q: seq<nat>, c: nat): (r: Option<nat>)
    ensures r.Some? ==> r.value < |q| && q[r.value] in s.threads && MayRun(s, q[r.value], c)
    ensures r.Some? ==> forall i :: 0 <= i < r.value && q[i] in s.threads ==> !MayRun(s, q[i], c)
    ensures r.None? ==> forall i :: 0 <= i < |q| && q[i] in s.threads ==> !MayRun(s, q[i], c)
  {
    if q == [] then None
    else if q[0] in s.threads && MayRun(s, q[0], c) then Some(0)
    else match FirstAllowed(s, q[1..], c)
      case None => None
      case Some(i) => Some(i + 1)
  }

  /** The thread a CPU should run next: the first allowed one of the highest priority that has one. */
  function Pick(s: Sched, c: nat, n: nat): (r: Option<(nat, nat)>)
    requires n <= |s.queues|
    ensures r.Some? ==> && r.value.0 < n && r.value.1 < |s.queues[r.value.0]|
                        && FirstAllowed(s, s.queues[r.value.0], c) == Some(r.value.1)
                        && forall p :: r.value.0 < p < n ==> FirstAllowed(s, s.queues[p], c).None?
    ensures r.None? ==> forall p :: 0 <= p < n ==> FirstAllowed(s, s.queues[p], c).None?
  {
    if n == 0 then None
    else match FirstAllowed(s, s.queues[n - 1], c)
      case Some(i) => Some((n - 1, i))
      case None => Pick(s, c, n - 1)
  }

  /** get_top_thread as a function: the thread picked, taken off its queue, or the idle thread. */
  function Top(s: Sched, c: nat): (r: (Sched, nat))
    requires c < |s.idle|
  {
    match Pick(s, c, |s.queues|)
    case None => (s, s.idle[c])
    case Some((p, i)) => (Dequeue(s, p, i), s.queues[p][i])
  }

  /** thread_resched: give CPU `c` to the top thread. */
  function Switch(s: Sched, c: nat): (r: Sched)
    requires c < |s.idle| == |s.current| && s.current[c] in s.threads && Top(s, c).1 in s.threads
  {
    var (s1, next) := Top(s, c);
    var prev := s.current[c];
    var s2 := SetThread(s1, next, s1.threads[next].(state := Running));
    if next == prev then s2
    else
      var th := s2.threads[next];
      var q := if th.quantum <= 0 then FULL_QUANTUM else th.quantum;
      var s3 := SetThread(s2, prev, s2.threads[prev].(cpu := -1));
      SetThread(s3, next, th.(quantum := q, cpu := c)).(current := s.current[c := next])
  }

  /** Taking a thread off its run queue keeps the bitmap exact. */
  lemma DequeueInv(s: Sched, p: nat, i: nat, mid: Option<nat>)
    requires Inv(s, mid, {}) && p < |s.queues| && i < |s.queues[p]|
    ensures ReadyAt(s, s.queues[p][i], p)
    ensures Inv(Dequeue(s, p, i), mid, {s.queues[p][i]})
  {
    assert QueueOk(s, p, {});
    var l := s.queues[p];
    var t := l[i];
    var s' := Dequeue(s, p, i);
    forall r ensures QueueOk(s', r, {t}) {
      assert QueueOk(s, r, {});
      DequeueOk(s, p, i, r);
    }
    forall q ensures WaitOk(s', q, {t}) {
      assert WaitOk(s, q, {});
    }
    forall u ensures ThreadOk(s', u, mid, {t}) {
      assert ThreadOk(s, u, mid, {});
      RemoveKeeps(l, i, u);
    }
    forall c ensures CpuOk(s', c, mid) {
      assert CpuOk(s, c, mid);
    }
  }

  lemma DequeueOk(s: Sched, p: nat, i: nat, r: nat)
    requires p < |s.queues| && i < |s.queues[p]| && QueueOk(s, p, {}) && QueueOk(s, r, {})
    ensures QueueOk(Dequeue(s, p, i), r, {s.queues[p][i]})
  {
    var l, s' := s.queues[p], Dequeue(s, p, i);
    RemoveKeeps(l, i, l[i]);
    if r == p {
      forall j | 0 <= j < |s'.queues[p]| ensures ReadyAt(s', s'.queues[p][j], p) && s'.queues[p][j] !in {l[i]} {
        assert s'.queues[p][j] == l[if j < i then j else j + 1];
      }
    }
  }

  /** The chosen thread is loose, ready and allowed on the CPU that is switching. */
  lemma TopInv(s: Sched, c: nat)
    requires Inv(s, Some(c), {}) && c < |s.current|
    ensures var (s1, next) := Top(s, c);
            && next in s1.threads && s1.threads[next].state == Ready && MayRun(s1, next, c)
            && s1.threads == s.threads && s1.current == s.current && s1.idle == s.idle
            && Inv(s1, Some(c), {next}) && (s1.threads[next].isIdle ==> next == s.idle[c])
  {
    match Pick(s, c, |s.queues|)
    case None =>
      var t := s.idle[c];
      assert CpuOk(s, c, Some(c));
      assert ThreadOk(s, t, Some(c), {});
      var d := s.threads[t].cpu;
      if 0 <= d {
        assert CpuOk(s, d, Some(c));
      }
      IdleLoose(s, t, Some(c));
    case Some((p, i)) =>
      DequeueInv(s, p, i, Some(c));
  }

  /** The thread chosen is not idle if any ready thread may run there; it has at least the priority of every such
      thread, and comes first in the queue among those of its own priority. */
  lemma TopIsHighest(s: Sched, c: nat, u: nat)
    requires Inv(s, Some(c), {}) && c < |s.current| && u in s.threads
    requires s.threads[u].state == Ready && !s.threads[u].isIdle && MayRun(s, u, c)
    ensures var next := Top(s, c).1;
            && s.threads[u].priority < |s.queues|
            && next in s.threads && !s.threads[next].isIdle && s.threads[next].priority >= s.threads[u].priority
            && (s.threads[next].priority == s.threads[u].priority ==>
                  var q := s.queues[s.threads[u].priority];
                  u in q && next in q && IndexOf(q, next) <= IndexOf(q, u))
  {
    assert ThreadOk(s, u, Some(c), {});
    var p := s.threads[u].priority;
    var r := Pick(s, c, |s.queues|);
    var i := IndexOf(s.queues[p], u);
    assert FirstAllowed(s, s.queues[p], c).Some? && FirstAllowed(s, s.queues[p], c).value <= i;
    var (pr, at) := r.value;
    assert QueueOk(s, pr, {}) && ReadyAt(s, s.queues[pr][at], pr);
    if pr == p {
      FirstIndex(s.queues[p], at);
    }
  }

  lemma {:induction false} FirstIndex(l: seq<nat>, i: nat)
    requires i < |l|
    ensures IndexOf(l, l[i]) <= i
  {
    if l[0] != l[i] {
      FirstIndex(l[1..], i - 1);
    }
  }

  /** An idle thread is never on a queue, so it may count as loose. */
  lemma IdleLoose(s: Sched, t: nat, mid: Option<nat>)
    requires Inv(s, mid, {}) && t in s.threads && s.threads[t].isIdle
    ensures Inv(s, mid, {t})
  {
    forall p ensures QueueOk(s, p, {t}) {
      assert QueueOk(s, p, {});
    }
    forall q ensures WaitOk(s, q, {t}) {
      assert WaitOk(s, q, {});
    }
    forall u ensures ThreadOk(s, u, mid, {t}) {
      assert ThreadOk(s, u, mid, {});
    }
  }

  /** Switching ends in a steady state, with the chosen thread running on `c`. */
  lemma SwitchInv(s: Sched, c: nat)
    requires Inv(s, Some(c), {}) && c < |s.current|
    ensures s.current[c] in s.threads && Top(s, c).1 in s.threads && Steady(Switch(s, c))
    ensures Switch(s, c).current == s.current[c := Top(s, c).1]
  {
    TopInv(s, c);
    assert CpuOk(s, c, Some(c));
    var (s1, next) := Top(s, c);
    var s' := Switch(s, c);
    forall p ensures QueueOk(s', p, {}) {
      assert QueueOk(s1, p, {next});
    }
    forall q ensures WaitOk(s', q, {}) {
      assert WaitOk(s1, q, {next});
    }
    forall u ensures ThreadOk(s', u, None, {}) {
      SwitchThread(s, c, s1, next, u);
    }
    forall d ensures CpuOk(s', d, None) {
      assert CpuOk(s1, d, Some(c));
    }
  }

  lemma SwitchThread(s: Sched, c: nat, s1: Sched, next: nat, u: nat)
    requires c < |s.current| == |s.idle| && (s1, next) == Top(s, c)
    requires Inv(s1, Some(c), {next}) && next in s1.threads && s1.threads[next].state == Ready
    requires s1.threads == s.threads && s1.current == s.current && s1.idle == s.idle && s.current[c] in s.threads
    ensures ThreadOk(Switch(s, c), u, None, {})
  {
    var s', prev := Switch(s, c), s.current[c];
    assert ThreadOk(s1, u, Some(c), {next});
    assert CpuOk(s1, c, Some(c));
    assert s'.queues == s1.queues && s'.waits == s1.waits && s'.current == s.current[c := next];
    assert u != next && u != prev && u in s.threads ==> s'.threads[u] == s.threads[u];
    if u in s1.threads && s1.threads[u].state == Running && 0 <= s1.threads[u].cpu < |s1.current| {
      assert CpuOk(s1, s1.threads[u].cpu, Some(c));
    }
  }

  /** thread_resched, from a state in which only CPU `c` is between threads. */
  ghost function SwitchFrom(s: Sched, c: nat): (r: Sched)
    requires Inv(s, Some(c), {}) && c < |s.current|
    ensures Steady(r)
  {
    SwitchInv(s, c);
    Switch(s, c)
  }

  /** The steps taken under `thread_lock`.  A blocking call ends in `Block` or in a step that wakes; the
      thread goes on when a later switch picks it. */
  datatype Step =
    | Create(thread: nat, info: Thread)
    | Resume(thread: nat)
    | Yield(c: nat)
    | Preempt(c: nat)
    | Tick(c: nat)
    | SetRealTime(thread: nat)
    | SetPriority(c: nat, priority: int)
    | Sleep(c: nat)
    | SleepDone(thread: nat)
    | Exit(c: nat)
    | NewQueue(q: nat)
    | Block(c: nat, q: nat)
    | WakeOne(c: nat, q: nat, resched: bool, err: int)
    | WakeAll(c: nat, q: nat, resched: bool, err: int)
    | Unblock(thread: nat, err: int)

  /** What the callers of each step must see to (the source's assertions, and that an idle thread never
      blocks, sleeps, exits, changes priority or wakes with `reschedule` set). */
  predicate Enabled(s: Sched, step: Step) {
    match step
    case Create(t, th) =>
      t !in s.threads && th.state == Suspended && th.priority < NUM_PRIORITIES && !th.isIdle
      && -1 <= th.pinned < |s.current| && th.blockedOn == None
    case Resume(t) => t in s.threads
    case Yield(c) => OnCpu(s, c)
    case Preempt(c) => OnCpu(s, c)
    case Tick(c) => OnCpu(s, c)
    case SetRealTime(t) => t in s.threads
    case SetPriority(c, _) => OnCpu(s, c) && !CurrentIdle(s, c)
    case Sleep(c) => OnCpu(s, c) && !CurrentIdle(s, c)
    case SleepDone(t) => t in s.threads && s.threads[t].state == Sleeping
    case Exit(c) => OnCpu(s, c) && !CurrentIdle(s, c) && s.threads[s.current[c]].joinq in s.waits
    case NewQueue(q) => q !in s.waits
    case Block(c, q) => OnCpu(s, c) && !CurrentIdle(s, c) && q in s.waits
    case WakeOne(c, q, resched, _) => OnCpu(s, c) && q in s.waits && (resched ==> !CurrentIdle(s, c))
    case WakeAll(c, q, resched, _) => OnCpu(s, c) && q in s.waits && (resched ==> !CurrentIdle(s, c))
    case Unblock(t, _) => t in s.threads
  }

  predicate OnCpu(s: Sched, c: nat) {
    c < |s.current| && s.current[c] in s.threads
  }

  predicate CurrentIdle(s: Sched, c: nat)
    requires OnCpu(s, c)
  {
    s.threads[s.current[c]].isIdle
  }

  /** A suspended or sleeping thread is on no queue, so it may count as loose. */
  lemma Loosen(s: Sched, t: nat)
    requires Steady(s) && t in s.threads && s.threads[t].state in {Suspended, Sleeping}
    ensures Inv(s, None, {t})
  {
    forall p ensures QueueOk(s, p, {t}) {
      assert QueueOk(s, p, {});
    }
    forall q ensures WaitOk(s, q, {t}) {
      assert WaitOk(s, q, {});
    }
    forall u ensures ThreadOk(s, u, None, {t}) {
      assert ThreadOk(s, u, None, {});
    }
  }

  /** Put the current thread of `c`, changed to `th`, back on a run queue (an idle thread goes on none) and
      switch. */
  ghost function Requeue(s: Sched, c: nat, th: Thread, head: bool): (r: Sched)
    requires Steady(s) && OnCpu(s, c) && th.state == Ready && th.priority < NUM_PRIORITIES
    requires th == s.threads[s.current[c]].(state := Ready, quantum := th.quantum, priority := th.priority)
    ensures Steady(r)
  {
    var t := s.current[c];
    assert CpuOk(s, c, None);
    assert ThreadOk(s, t, None, {});
    TakeOff(s, c, th, {});
    var s1 := SetThread(s, t, th);
    assert {} + {t} == {t} && {t} - {t} == {};
    if th.isIdle then
      Settle(s1, t, Some(c), {t});
      SwitchFrom(s1, c)
    else
      EnqueueInv(s1, t, head, Some(c), {t});
      var s2 := Enqueue(s1, t, head);
      SwitchFrom(s2, c)
  }

  /** Make a suspended or sleeping thread ready, at the head of its run queue. */
  ghost function Activate(s: Sched, t: nat): (r: Sched)
    requires Steady(s) && t in s.threads && s.threads[t].state in {Suspended, Sleeping}
    ensures Steady(r)
  {
    Loosen(s, t);
    assert ThreadOk(s, t, None, {});
    var s1 := SetThread(s, t, s.threads[t].(state := Ready));
    SetLoose(s, t, s.threads[t].(state := Ready), None, {t});
    EnqueueInv(s1, t, true, None, {t});
    assert {t} - {t} == {};
    Enqueue(s1, t, true)
  }

  /** Take waiter `i` off queue `q` and make it ready with a return code. */
  ghost function Release(s: Sched, q: nat, i: nat, err: int, mid: Option<nat>): (r: Sched)
    requires Inv(s, mid, {}) && q in s.waits && i < |s.waits[q].list|
    ensures var t := s.waits[q].list[i];
            && t in s.threads && s.threads[t].state == Blocked && t in r.threads
            && r.threads == s.threads[t := s.threads[t].(state := Ready, blockRet := err, blockedOn := None)]
            && Inv(r, mid, {t}) && !r.threads[t].isIdle
            && r.waits == WaitRemove(s, q, i).waits && r.current == s.current
  {
    WaitRemoveInv(s, q, i, mid, {});
    var t := s.waits[q].list[i];
    var s1 := WaitRemove(s, q, i);
    assert {} + {t} == {t};
    assert ThreadOk(s1, t, mid, {t});
    var th := s1.threads[t].(state := Ready, blockRet := err, blockedOn := None);
    SetLoose(s1, t, th, mid, {t});
    SetThread(s1, t, th)
  }

  /** wait_queue_wake_one */
  ghost function WakeFirst(s: Sched, c: nat, q: nat, resched: bool, err: int): (r: Sched)
    requires Steady(s) && OnCpu(s, c) && q in s.waits && (resched ==> !CurrentIdle(s, c))
    ensures Steady(r)
  {
    if s.waits[q].list == [] then s
    else
      var t := s.waits[q].list[0];
      var s1 := Release(s, q, 0, err, None);
      assert {t} - {t} == {};
      if resched then
        var cur := s.current[c];
        assert CpuOk(s1, c, None) && CpuOk(s, c, None);
        assert ThreadOk(s1, cur, None, {t});
        var th := s1.threads[cur].(state := Ready);
        TakeOff(s1, c, th, {t});
        var s2 := SetThread(s1, cur, th);
        EnqueueInv(s2, cur, true, Some(c), {t} + {cur});
        assert {t} + {cur} - {cur} == {t};
        var s3 := Enqueue(s2, cur, true);
        EnqueueInv(s3, t, true, Some(c), {t});
        var s4 := Enqueue(s3, t, true);
        SwitchFrom(s4, c)
      else
        EnqueueInv(s1, t, true, None, {t});
        Enqueue(s1, t, true)
  }

  /** The loop of wait_queue_wake_all. */
  ghost function WakeEach(s: Sched, q: nat, err: int, mid: Option<nat>): (r: Sched)
    requires Inv(s, mid, {}) && q in s.waits
    ensures Inv(r, mid, {}) && q in r.waits && r.waits[q].list == [] && r.current == s.current
    decreases |s.waits[q].list|
  {
    if s.waits[q].list == [] then s
    else
      var t := s.waits[q].list[0];
      var s1 := Release(s, q, 0, err, mid);
      EnqueueInv(s1, t, true, mid, {t});
      assert {t} - {t} == {};
      WakeEach(Enqueue(s1, t, true), q, err, mid)
  }

  /** wait_queue_wake_all */
  ghost function WakeEvery(s: Sched, c: nat, q: nat, resched: bool, err: int): (r: Sched)
    requires Steady(s) && OnCpu(s, c) && q in s.waits && (resched ==> !CurrentIdle(s, c))
    ensures Steady(r)
  {
    if resched && s.waits[q].list != [] then
      var cur := s.current[c];
      assert CpuOk(s, c, None);
      assert ThreadOk(s, cur, None, {});
      var th := s.threads[cur].(state := Ready);
      TakeOff(s, c, th, {});
      var s1 := SetThread(s, cur, th);
      assert {} + {cur} == {cur} && {cur} - {cur} == {};
      EnqueueInv(s1, cur, true, Some(c), {cur});
      var s2 := WakeEach(Enqueue(s1, cur, true), q, err, Some(c));
      SwitchFrom(s2, c)
    else WakeEach(s, q, err, None)
  }

  function IndexOf(l: seq<nat>, t: nat): (i: nat)
    requires t in l
    ensures i < |l| && l[i] == t
  {
    if l[0] == t then 0 else 1 + IndexOf(l[1..], t)
  }

  /** thread_unblock_from_wait_queue */
  ghost function Evict(s: Sched, t: nat, err: int): (r: Sched)
    requires Steady(s) && t in s.threads
    ensures Steady(r)
  {
    if s.threads[t].state != Blocked then s
    else
      assert ThreadOk(s, t, None, {});
      var q := s.threads[t].blockedOn.value;
      var s1 := Release(s, q, IndexOf(s.waits[q].list, t), err, None);
      EnqueueInv(s1, t, true, None, {t});
      assert {t} - {t} == {};
      Enqueue(s1, t, true)
  }

  /** Leave the CPU for a state that is on no run queue, then switch. */
  ghost function Leave(s: Sched, c: nat, th: Thread, wake: Option<nat>): (r: Sched)
    requires Steady(s) && OnCpu(s, c) && !CurrentIdle(s, c) && th.state in {Sleeping, Death}
    requires th == s.threads[s.current[c]].(state := th.state) && (wake.Some? ==> wake.value in s.waits)
    ensures Steady(r)
  {
    var t := s.current[c];
    assert CpuOk(s, c, None);
    assert ThreadOk(s, t, None, {});
    TakeOff(s, c, th, {});
    assert {} + {t} == {t} && {t} - {t} == {};
    var s1 := SetThread(s, t, th);
    Settle(s1, t, Some(c), {t});
    var s2 := if wake.Some? then WakeEach(s1, wake.value, NO_ERROR, Some(c)) else s1;
    SwitchFrom(s2, c)
  }

  /** wait_queue_block with a non-zero timeout, up to the switch. */
  ghost function BlockOn(s: Sched, c: nat, q: nat): (r: Sched)
    requires Steady(s) && OnCpu(s, c) && !CurrentIdle(s, c) && q in s.waits
    ensures Steady(r)
  {
    var t := s.current[c];
    assert CpuOk(s, c, None);
    assert ThreadOk(s, t, None, {});
    var th := s.threads[t].(state := Blocked, blockedOn := Some(q), blockRet := NO_ERROR);
    TakeOff(s, c, th, {});
    assert {} + {t} == {t} && {t} - {t} == {};
    var s1 := SetThread(s, t, th);
    WaitEnqueueInv(s1, t, q, Some(c), {t});
    var s2 := WaitEnqueue(s1, t, q);
    SwitchFrom(s2, c)
  }

  /** The priority thread_set_priority settles on. */
  function ClampPriority(p: int): (r: nat)
    ensures IDLE_PRIORITY < r < NUM_PRIORITIES
  {
    if p <= IDLE_PRIORITY then IDLE_PRIORITY + 1 else if p > HIGHEST_PRIORITY then HIGHEST_PRIORITY else p
  }

  lemma CreateInv(s: Sched, t: nat, th: Thread)
    requires Steady(s) && Enabled(s, Create(t, th))
    ensures Steady(SetThread(s, t, th))
  {
    var s' := SetThread(s, t, th);
    forall p ensures QueueOk(s', p, {}) {
      assert QueueOk(s, p, {});
    }
    forall q ensures WaitOk(s', q, {}) {
      assert WaitOk(s, q, {});
    }
    forall u ensures ThreadOk(s', u, None, {}) {
      assert ThreadOk(s, u, None, {});
    }
    forall c ensures CpuOk(s', c, None) {
      assert CpuOk(s, c, None);
    }
  }

  lemma NewQueueInv(s: Sched, q: nat)
    requires Steady(s) && q !in s.waits
    ensures Steady(s.(waits := s.waits[q := WaitQueue([], 0)]))
  {
    var s' := s.(waits := s.waits[q := WaitQueue([], 0)]);
    forall p ensures QueueOk(s', p, {}) {
      assert QueueOk(s, p, {});
    }
    forall r ensures WaitOk(s', r, {}) {
      assert WaitOk(s, r, {});
    }
    forall u ensures ThreadOk(s', u, None, {}) {
      assert ThreadOk(s, u, None, {});
    }
    forall c ensures CpuOk(s', c, None) {
      assert CpuOk(s, c, None);
    }
  }

  lemma QuantumInv(s: Sched, t: nat, n: int, rt: bool)
    requires Steady(s) && t in s.threads
    ensures Steady(SetThread(s, t, s.threads[t].(quantum := n, realTime := rt)))
  {
    var s' := SetThread(s, t, s.threads[t].(quantum := n, realTime := rt));
    forall p ensures QueueOk(s', p, {}) {
      assert QueueOk(s, p, {});
    }
    forall q ensures WaitOk(s', q, {}) {
      assert WaitOk(s, q, {});
    }
    forall u ensures ThreadOk(s', u, None, {}) {
      assert ThreadOk(s, u, None, {});
    }
    forall c ensures CpuOk(s', c, None) {
      assert CpuOk(s, c, None);
    }
  }

  /** One step.  It keeps every thread in the place its state names. */
  ghost function Next(s: Sched, step: Step): (r: Sched)
    requires Steady(s) && Enabled(s, step)
    ensures Steady(r)
  {
    match step
    case Create(t, th) => CreateInv(s, t, th); SetThread(s, t, th)
    case Resume(t) => if s.threads[t].state == Suspended then Activate(s, t) else s
    case Yield(c) =>
      assert ThreadOk(s, s.current[c], None, {});
      Requeue(s, c, s.threads[s.current[c]].(state := Ready, quantum := 0), false)
    case Preempt(c) =>
      assert ThreadOk(s, s.current[c], None, {});
      var th := s.threads[s.current[c]];
      Requeue(s, c, th.(state := Ready), th.quantum > 0)
    case Tick(c) =>
      var t := s.current[c];
      if s.threads[t].isIdle || s.threads[t].realTime then s
      else
        QuantumInv(s, t, s.threads[t].quantum - 1, s.threads[t].realTime);
        SetThread(s, t, s.threads[t].(quantum := s.threads[t].quantum - 1, realTime := s.threads[t].realTime))
    case SetRealTime(t) =>
      QuantumInv(s, t, s.threads[t].quantum, true);
      SetThread(s, t, s.threads[t].(quantum := s.threads[t].quantum, realTime := true))
    case SetPriority(c, p) =>
      Requeue(s, c, s.threads[s.current[c]].(state := Ready, priority := ClampPriority(p)), true)
    case Sleep(c) => Leave(s, c, s.threads[s.current[c]].(state := Sleeping), None)
    case SleepDone(t) => Activate(s, t)
    case Exit(c) =>
      var th := s.threads[s.current[c]];
      Leave(s, c, th.(state := Death), if th.detached then None else Some(th.joinq))
    case NewQueue(q) => NewQueueInv(s, q); s.(waits := s.waits[q := WaitQueue([], 0)])
    case Block(c, q) => BlockOn(s, c, q)
    case WakeOne(c, q, resched, err) => WakeFirst(s, c, q, resched, err)
    case WakeAll(c, q, resched, err) => WakeEvery(s, c, q, resched, err)
    case Unblock(t, err) => Evict(s, t, err)
  }

  ghost predicate Legal(s: Sched, steps: seq<Step>)
    requires Steady(s)
    decreases |steps|
  {
    steps == [] || (Enabled(s, steps[0]) && Legal(Next(s, steps[0]), steps[1..]))
  }

  /** The state after a whole run. */
  ghost function Run(s: Sched, steps: seq<Step>): (r: Sched)
    requires Steady(s) && Legal(s, steps)
    ensures Steady(r)
    decreases |steps|
  {
    if steps == [] then s else Run(Next(s, steps[0]), steps[1..])
  }

  /** The state when the CPUs have started: each runs its idle thread, thread number `c` for CPU `c`. */
  function Boot(n: nat): Sched {
    Sched(map c: nat | c < n :: Thread(Running, IDLE_PRIORITY, 0, c, c, true, None, NO_ERROR, 0, true, false),
          seq(NUM_PRIORITIES, p => []), {}, map[], seq(n, c => c), seq(n, c => c))
  }

  lemma BootSteady(n: nat)
    ensures Steady(Boot(n))
  {
    var s := Boot(n);
    forall p ensures QueueOk(s, p, {}) {
    }
    forall t ensures ThreadOk(s, t, None, {}) {
    }
    forall c ensures CpuOk(s, c, None) {
    }
  }

  datatype Place = OnProcessor(c: nat) | InRunQueue(p: nat, i: nat) | InWaitQueue(q: nat, i: nat)

  /** Everywhere a thread is linked or running. */
  ghost function Places(s: Sched, t: nat): set<Place> {
    (set c | 0 <= c < |s.current| && s.current[c] == t :: OnProcessor(c))
    + (set p, i | 0 <= p < |s.queues| && 0 <= i < |s.queues[p]| && s.queues[p][i] == t :: InRunQueue(p, i))
    + (set q, i | q in s.waits && 0 <= i < |s.waits[q].list| && s.waits[q].list[i] == t :: InWaitQueue(q, i))
  }

  /** In every reachable state a thread is in exactly the place its state names. */
  lemma OnePlace(s: Sched, t: nat)
    requires Steady(s) && t in s.threads && !s.threads[t].isIdle
    ensures var th := s.threads[t];
            match th.state
            case Running => th.cpu >= 0 && Places(s, t) == {OnProcessor(th.cpu)}
            case Ready => && th.priority < |s.queues| && t in s.queues[th.priority]
                          && Places(s, t) == {InRunQueue(th.priority, IndexOf(s.queues[th.priority], t))}
            case Blocked => && th.blockedOn.Some? && th.blockedOn.value in s.waits
                            && t in s.waits[th.blockedOn.value].list
                            && Places(s, t)
                                 == {InWaitQueue(th.blockedOn.value, IndexOf(s.waits[th.blockedOn.value].list, t))}
            case _ => Places(s, t) == {}
  {
    assert ThreadOk(s, t, None, {});
    forall c: nat | c < |s.current| && s.current[c] == t
      ensures s.threads[t].state == Running && s.threads[t].cpu == c
    {
      assert CpuOk(s, c, None);
    }
    forall p: nat, i: nat | p < |s.queues| && i < |s.queues[p]| && s.queues[p][i] == t
      ensures s.threads[t].state == Ready && s.threads[t].priority == p && i == IndexOf(s.queues[p], t)
    {
      assert QueueOk(s, p, {});
    }
    forall q: nat, i: nat | q in s.waits && i < |s.waits[q].list| && s.waits[q].list[i] == t
      ensures s.threads[t].state == Blocked && s.threads[t].blockedOn == Some(q) && i == IndexOf(s.waits[q].list, t)
    {
      assert WaitOk(s, q, {});
    }
  }

  /** Over any run from the boot state: one place for each thread, exact bitmap, exact wait counts. */
  lemma EveryRun(n: nat, steps: seq<Step>)
    requires Steady(Boot(n)) && Legal(Boot(n), steps)
    ensures var s := Run(Boot(n), steps);
            && Steady(s)
            && (forall p: nat :: p in s.bitmap <==> p < |s.queues| && s.queues[p] != [])
            && (forall q :: q in s.waits ==> s.waits[q].count == |s.waits[q].list|)
            && (forall t :: t in s.threads && !s.threads[t].isIdle ==>
                              |Places(s, t)| == if s.threads[t].state in {Running, Ready, Blocked} then 1 else 0)
  {
    var s := Run(Boot(n), steps);
    forall p: nat ensures p in s.bitmap <==> p < |s.queues| && s.queues[p] != [] {
      assert QueueOk(s, p, {});
    }
    forall q | q in s.waits ensures s.waits[q].count == |s.waits[q].list| {
      assert WaitOk(s, q, {});
    }
    forall t | t in s.threads && !s.threads[t].isIdle
      ensures |Places(s, t)| == if s.threads[t].state in {Running, Ready, Blocked} then 1 else 0
    {
      OnePlace(s, t);
    }
  }
}
