/** kernel/port.c, for one unicast port: a ring buffer of packets that the write side owns while nobody reads and
    hands to the read port that opens it. */
module Ports {
  import opened Arith
  import opened Rings
  import opened Sched
  import opened Waiters
  import opened Effects
  import opened Kernel

  const PORT_BUFF_SIZE: nat := 8
  const PORT_BUFF_SIZE_BIG: nat := 64
  const ERR_NOT_ENOUGH_BUFFER: int := -9
  const ERR_OBJECT_DESTROYED: int := -11
  const ERR_NOT_ALLOWED: int := -17
  const ERR_BAD_HANDLE: int := -42
  const ERR_PARTIAL_WRITE: int := -44

  type Packet = seq<bv8>

  /** port_buf_t */
  class Ring {
    const packet: array<Packet>
    var avail: nat
    var head: nat
    var tail: nat

    ghost predicate Valid()
      reads this, packet
    {
      head < packet.Length && avail <= packet.Length && tail == Wrap(head + packet.Length - avail, packet.Length)
    }

    ghost function Contents(): (s: seq<Packet>)
      reads this, packet
      requires Valid()
      ensures |s| == packet.Length - avail
    {
      Unroll(packet[..], head, packet.Length - avail)
    }

    /** make_buf */
    constructor (big: bool)
      ensures Valid() && Contents() == [] && fresh(packet)
      ensures packet.Length == if big then PORT_BUFF_SIZE_BIG else PORT_BUFF_SIZE
    {
      var count := if big then PORT_BUFF_SIZE_BIG else PORT_BUFF_SIZE;
      packet := new Packet[count](i => []);
      head, tail, avail := 0, 0, count;
    }

    /** One round of buf_write, with `used` packets in the buffer. */
    method Store(x: Packet, ghost used: nat)
      requires head < packet.Length && used < packet.Length && tail == Wrap(head + used, packet.Length)
      modifies this`tail, packet
      ensures tail == Wrap(head + used + 1, packet.Length)
      ensures Unroll(packet[..], head, used + 1) == old(Unroll(packet[..], head, used)) + [x]
    {
      ghost var a := packet[..];
      UnrollPush(a, head, used, x);
      packet[tail] := x;
      assert packet[..] == a[tail := x];
      tail := if tail + 1 == packet.Length then 0 else tail + 1;
    }

    /** buf_write: all of the packets or none. */
    method BufWrite(packets: seq<Packet>) returns (st: int)
      requires Valid()
      modifies this, packet
      ensures Valid()
      ensures st == if old(avail) < |packets| then ERR_NOT_ENOUGH_BUFFER else NO_ERROR
      ensures Contents() == if st == NO_ERROR then old(Contents()) + packets else old(Contents())
    {
      if avail < |packets| {
        return ERR_NOT_ENOUGH_BUFFER;
      }
      ghost var size, used := packet.Length, packet.Length - avail;
      ghost var before := Contents();
      var ix := 0;
      while ix != |packets|
        invariant ix <= |packets| && head == old(head) < size && avail == old(avail) && used + |packets| <= size
        invariant tail == Wrap(head + used + ix, size)
        invariant Unroll(packet[..], head, used + ix) == before + packets[..ix]
        decreases |packets| - ix
      {
        Store(packets[ix], used + ix);
        AppendNext(before, packets, ix);
        ix := ix + 1;
      }
      avail := avail - |packets|;
      assert packets[..ix] == packets;
      return NO_ERROR;
    }

    /** buf_read */
    method BufRead() returns (r: Option<Packet>)
      requires Valid()
      modifies this
      ensures Valid()
      ensures if old(Contents()) == [] then r == None && Contents() == []
              else r == Some(old(Contents())[0]) && Contents() == old(Contents())[1..]
    {
      if avail == packet.Length {
        return None;
      }
      UnrollDrop(packet[..], head, packet.Length - avail, 1);
      UnrollAt(packet[..], head, packet.Length - avail, 0);
      r := Some(packet[head]);
      head := if head + 1 == packet.Length then 0 else head + 1;
      avail := avail + 1;
    }
  }

  lemma AppendNext<T>(a: seq<T>, b: seq<T>, n: nat)
    requires n < |b|
    ensures a + b[..n] + [b[n]] == a + b[..n + 1]
  {
  }

  /** A port: what is buffered, whether the write side is open, whether there is a reader, the threads in a read, and
      the threads that go on with a read of a read port that has been freed under them. */
  datatype Port = Port(queue: seq<Packet>, cap: nat, open: bool, reader: bool, w: Waiters, stale: set<nat>)

  datatype Act =
    | Write(batch: seq<Packet>)
    | Open
    | Read(t: nat, timeout: nat)
    | Timeout(t: nat)
    | Wakeup(t: nat, timeout: nat)
    | CloseRead
    | CloseWrite

  function Fresh(cap: nat): Port {
    Port([], cap, true, false, NoWaiters, {})
  }

  /** Reads go through an open read port, by threads that are in no other read. */
  predicate Can(p: Port, a: Act) {
    match a
    case Write(_) => true
    case Open => true
    case Read(t, _) => p.reader && !Inside(p.w, t) && t !in p.stale
    case Timeout(t) => Inside(p.w, t) && t in p.w.timed
    case Wakeup(t, timeout) => t in p.w.woken && timeout != 0 && (t in p.w.timed <==> timeout != INFINITE_TIME)
    case CloseRead => p.reader
    case CloseWrite => p.open
  }

  predicate Accepts(p: Port, batch: seq<Packet>) {
    p.open && |p.queue| + |batch| <= p.cap
  }

  function Do(p: Port, a: Act): Port
    requires Can(p, a)
  {
    match a
    case Write(batch) => if Accepts(p, batch) then p.(queue := p.queue + batch, w := Grant(p.w)) else p
    case Open => if p.reader then p else p.(reader := true)
    case Read(t, timeout) =>
      if p.queue != [] then p.(queue := p.queue[1..])
      else if timeout == 0 then p
      else p.(w := Join(p.w, t, timeout))
    case Timeout(t) => p.(w := Expire(p.w, t))
    case Wakeup(t, timeout) =>
      if p.w.woken[t] != NO_ERROR then p.(w := Leaves(p.w, t))
      else if p.queue != [] then p.(queue := p.queue[1..], w := Leaves(p.w, t))
      else p.(w := Join(Leaves(p.w, t), t, timeout))
    case CloseRead => p.(reader := false, w := NoWaiters, stale := p.stale + Granted(p.w))
    case CloseWrite => p.(open := false)
  }

  /** What a step puts into the port and what it gives to a reader. */
  function Sent(p: Port, a: Act): seq<Packet> {
    if a.Write? && Accepts(p, a.batch) then a.batch else []
  }

  function Received(p: Port, a: Act): seq<Packet> {
    if p.queue != [] && (a.Read? || (a.Wakeup? && a.t in p.w.woken && p.w.woken[a.t] == NO_ERROR))
    then [p.queue[0]] else []
  }

  ghost predicate PortOk(p: Port) {
    Ok(p.w) && |p.queue| <= p.cap && (!p.reader ==> p.w.list == [] && p.w.woken == map[])
  }

  lemma DoOk(p: Port, a: Act)
    requires PortOk(p) && Can(p, a)
    ensures PortOk(Do(p, a))
  {
    match a
    case Write(batch) =>
      if p.w.list != [] {
        GrantOk(p.w);
      }
    case Read(t, timeout) => JoinOk(p.w, t, timeout);
    case Timeout(t) => ExpireOk(p.w, t);
    case Wakeup(t, timeout) =>
      LeavesOk(p.w, t);
      JoinOk(Leaves(p.w, t), t, timeout);
    case _ =>
  }

  /** One step neither loses, makes nor reorders packets. */
  lemma DoConserves(p: Port, a: Act)
    requires Can(p, a)
    ensures p.queue + Sent(p, a) == Received(p, a) + Do(p, a).queue
  {
  }

  predicate Legal(p: Port, acts: seq<Act>)
    decreases |acts|
  {
    acts == [] || (Can(p, acts[0]) && Legal(Do(p, acts[0]), acts[1..]))
  }

  function After(p: Port, acts: seq<Act>): Port
    requires Legal(p, acts)
    decreases |acts|
  {
    if acts == [] then p else After(Do(p, acts[0]), acts[1..])
  }

  function AllSent(p: Port, acts: seq<Act>): seq<Packet>
    requires Legal(p, acts)
    decreases |acts|
  {
    if acts == [] then [] else Sent(p, acts[0]) + AllSent(Do(p, acts[0]), acts[1..])
  }

  function AllReceived(p: Port, acts: seq<Act>): seq<Packet>
    requires Legal(p, acts)
    decreases |acts|
  {
    if acts == [] then [] else Received(p, acts[0]) + AllReceived(Do(p, acts[0]), acts[1..])
  }

  lemma {:induction false} Conserved(p: Port, acts: seq<Act>)
    requires PortOk(p) && Legal(p, acts)
    ensures PortOk(After(p, acts)) && After(p, acts).cap == p.cap
    ensures p.queue + AllSent(p, acts) == AllReceived(p, acts) + After(p, acts).queue
    decreases |acts|
  {
    if acts != [] {
      var p', rest := Do(p, acts[0]), acts[1..];
      DoOk(p, acts[0]);
      DoConserves(p, acts[0]);
      Conserved(p', rest);
      Shuffle(p.queue, Sent(p, acts[0]), AllSent(p', rest), Received(p, acts[0]), p'.queue, AllReceived(p', rest),
              After(p, acts).queue);
    }
  }

  lemma Shuffle(q: seq<Packet>, s: seq<Packet>, ss: seq<Packet>, r: seq<Packet>, q': seq<Packet>, rr: seq<Packet>,
                last: seq<Packet>)
    requires q + s == r + q' && q' + ss == rr + last
    ensures q + (s + ss) == (r + rr) + last
  {
    assert q + (s + ss) == (q + s) + ss;
    assert (r + q') + ss == r + (q' + ss);
    assert r + (rr + last) == (r + rr) + last;
  }

  /** Over any run, readers coming and going, the packets read are exactly the accepted ones, in order, but for those
      still buffered, of which there are at most as many as the buffer holds. */
  lemma Delivery(cap: nat, acts: seq<Act>)
    requires Legal(Fresh(cap), acts)
    ensures var p := After(Fresh(cap), acts);
            && AllSent(Fresh(cap), acts) == AllReceived(Fresh(cap), acts) + p.queue && |p.queue| <= cap
            && (!p.reader ==> p.w.list == [])
  {
    Conserved(Fresh(cap), acts);
    assert Fresh(cap).queue + AllSent(Fresh(cap), acts) == AllSent(Fresh(cap), acts);
  }

  /** A write is taken as a whole if the port is open and has room for all of it, and wakes the first sleeper; any
      other write changes nothing. */
  lemma WriteLaw(p: Port, batch: seq<Packet>)
    requires PortOk(p)
    ensures var r, room := Do(p, Write(batch)), p.open && |p.queue| + |batch| <= p.cap;
            if !room then r == p
            else && r == p.(queue := p.queue + batch, w := r.w) && r.w.timed == p.w.timed
                 && if p.w.list == [] then r.w == p.w
                    else r.w.list == p.w.list[1..] && r.w.woken == p.w.woken[p.w.list[0] := 0]
  {
  }

  /** A read takes the oldest packet; without one it fails at once or sleeps last in line. */
  lemma ReadLaw(p: Port, t: nat, timeout: nat)
    requires PortOk(p) && Can(p, Read(t, timeout))
    ensures var r := Do(p, Read(t, timeout));
            if p.queue != [] then r == p.(queue := r.queue) && p.queue == [p.queue[0]] + r.queue
            else if timeout == 0 then r == p
            else && r == p.(w := r.w) && r.w.list == p.w.list + [t] && r.w.woken == p.w.woken
                 && forall u :: u in r.w.timed <==> if u == t then timeout != INFINITE_TIME else u in p.w.timed
  {
  }

  /** A woken reader leaves with its error, leaves with the oldest packet, or sleeps again, last in line. */
  lemma WakeupLaw(p: Port, t: nat, timeout: nat)
    requires PortOk(p) && Can(p, Wakeup(t, timeout))
    ensures var r := Do(p, Wakeup(t, timeout));
            && r == p.(queue := r.queue, w := r.w) && r.w.woken == p.w.woken - {t}
            && if p.w.woken[t] != 0 then r.queue == p.queue && r.w.list == p.w.list
               else if p.queue != [] then p.queue == [p.queue[0]] + r.queue && r.w.list == p.w.list
               else r.queue == [] && r.w.list == p.w.list + [t]
  {
  }

  /** A timeout takes a sleeper out of line with its error; a thread woken before is left alone. */
  lemma TimeoutLaw(p: Port, t: nat)
    requires PortOk(p) && Can(p, Timeout(t))
    ensures var r := Do(p, Timeout(t));
            && r == p.(w := r.w) && r.w.timed == p.w.timed
            && if t !in p.w.list then r == p
               else && r.w.woken == p.w.woken[t := ERR_TIMED_OUT]
                    && exists i :: && 0 <= i < |p.w.list| && p.w.list[i] == t
                                   && r.w.list == p.w.list[..i] + p.w.list[i + 1..]
  {
    if t in p.w.list {
      assert p.w.list[IndexOf(p.w.list, t)] == t;
    }
  }

  /** Opening gives an unread port its reader; closing the reader leaves the packets and no thread inside, and every
      thread that had been woken for a packet stale. */
  lemma ReaderLaw(p: Port)
    requires PortOk(p)
    ensures Do(p, Open) == p.(reader := true)
    ensures p.reader ==>
              var r := Do(p, CloseRead);
              && r == p.(reader := false, w := r.w, stale := r.stale) && r.w == Waiters([], map[], {})
              && forall t :: t in r.stale <==> t in p.stale || (t in p.w.woken && p.w.woken[t] == 0)
  {
  }

  /** Once the write side is closed nothing is ever accepted again, whatever happens; what is buffered can be read. */
  lemma {:induction false} ClosedForever(p: Port, acts: seq<Act>, batch: seq<Packet>)
    requires !p.open && Legal(p, acts)
    ensures var r := After(p, acts);
            && !r.open && Do(r, Write(batch)) == r && AllSent(p, acts) == []
            && (PortOk(p) ==> p.queue == AllReceived(p, acts) + r.queue)
    decreases |acts|
  {
    if acts != [] {
      ClosedForever(Do(p, acts[0]), acts[1..], batch);
    }
    if PortOk(p) {
      Conserved(p, acts);
    }
  }

  /** A write after a close of the write side is refused, in every run. */
  lemma RefusedAfterClose(p: Port, acts: seq<Act>, batch: seq<Packet>)
    requires Can(p, CloseWrite) && Legal(Do(p, CloseWrite), acts)
    ensures var p1 := Do(p, CloseWrite);
            && p1 == p.(open := false) && AllSent(p1, acts) == []
            && !After(p1, acts).open && Do(After(p1, acts), Write(batch)) == After(p1, acts)
  {
    ClosedForever(Do(p, CloseWrite), acts, batch);
  }

  /** Closing a read port while a thread that was woken for a packet has not run yet frees the port under it. */
  predicate Strands(p: Port, a: Act) {
    a.CloseRead? && Granted(p.w) != {}
  }

  ghost predicate NeverStrands(p: Port, acts: seq<Act>)
    requires Legal(p, acts)
    decreases |acts|
  {
    acts != [] ==> !Strands(p, acts[0]) && NeverStrands(Do(p, acts[0]), acts[1..])
  }

  /** No thread is left with a freed port if and only if no close comes between a thread's wake-up and its next run. */
  lemma {:induction false} StaleRun(p: Port, acts: seq<Act>)
    requires Legal(p, acts)
    ensures After(p, acts).stale == {} <==> p.stale == {} && NeverStrands(p, acts)
    decreases |acts|
  {
    if acts != [] {
      StaleRun(Do(p, acts[0]), acts[1..]);
    }
  }

  /** A reader is woken for a packet and the port is closed before it runs: it goes on with a port that is gone. */
  lemma StaleExample(x: Packet)
    ensures var acts := [Open, Read(1, INFINITE_TIME), Write([x]), CloseRead];
            Legal(Fresh(PORT_BUFF_SIZE), acts) && After(Fresh(PORT_BUFF_SIZE), acts).stale == {1}
  {
    var p1 := Port([], 8, true, true, NoWaiters, {});
    var p2 := Port([], 8, true, true, Waiters([1], map[], {}), {});
    var p3 := Port([x], 8, true, true, Waiters([], map[1 := NO_ERROR], {}), {});
    var p4 := Port([x], 8, true, false, NoWaiters, {1});
    Before(p3, CloseRead, p4, []);
    Before(p2, Write([x]), p3, [CloseRead]);
    Before(p1, Read(1, INFINITE_TIME), p2, [Write([x]), CloseRead]);
    Before(Fresh(8), Open, p1, [Read(1, INFINITE_TIME), Write([x]), CloseRead]);
  }

  /** If threads sleep in a read, each buffered packet has a thread on its way to it. */
  predicate Served(p: Port) {
    p.w.list != [] ==> |p.queue| <= |Granted(p.w)|
  }

  /** A write wakes one thread, however many packets it brings: too many of them leave a sleeper behind. */
  predicate Swamps(p: Port, a: Act) {
    a.Write? && Accepts(p, a.batch) && |p.w.list| > 1 && |p.queue| + |a.batch| > |Granted(p.w)| + 1
  }

  /** That is the one way for a thread to sleep beside a packet nobody is coming for. */
  lemma ServedStep(p: Port, a: Act)
    requires PortOk(p) && Served(p) && Can(p, a)
    ensures Served(Do(p, a)) <==> !Swamps(p, a)
  {
    match a
    case Write(batch) =>
      if p.w.list != [] {
        GrantOk(p.w);
      }
    case Read(t, timeout) => JoinOk(p.w, t, timeout);
    case Timeout(t) => ExpireOk(p.w, t);
    case Wakeup(t, timeout) =>
      LeavesOk(p.w, t);
      JoinOk(Leaves(p.w, t), t, timeout);
    case _ =>
  }

  ghost predicate AlwaysServed(p: Port, acts: seq<Act>)
    requires Legal(p, acts)
    decreases |acts|
  {
    Served(p) && (acts != [] ==> AlwaysServed(Do(p, acts[0]), acts[1..]))
  }

  ghost predicate NeverSwamps(p: Port, acts: seq<Act>)
    requires Legal(p, acts)
    decreases |acts|
  {
    acts != [] ==> !Swamps(p, acts[0]) && NeverSwamps(Do(p, acts[0]), acts[1..])
  }

  /** A run keeps every sleeping reader served if and only if no write in it swamps them. */
  lemma {:induction false} ServedRun(p: Port, acts: seq<Act>)
    requires PortOk(p) && Served(p) && Legal(p, acts)
    ensures AlwaysServed(p, acts) <==> NeverSwamps(p, acts)
    decreases |acts|
  {
    if acts != [] {
      DoOk(p, acts[0]);
      ServedStep(p, acts[0]);
      if Served(Do(p, acts[0])) {
        ServedRun(Do(p, acts[0]), acts[1..]);
      }
    }
  }

  /** Single-packet writes never swamp: then no reader sleeps beside an unclaimed packet. */
  lemma {:induction false} SingleWritesServed(p: Port, acts: seq<Act>)
    requires PortOk(p) && Served(p) && Legal(p, acts)
    requires forall i :: 0 <= i < |acts| && acts[i].Write? ==> |acts[i].batch| <= 1
    ensures AlwaysServed(p, acts)
    decreases |acts|
  {
    if acts != [] {
      DoOk(p, acts[0]);
      ServedStep(p, acts[0]);
      assert forall i :: 0 <= i < |acts[1..]| ==> acts[1..][i] == acts[i + 1];
      SingleWritesServed(Do(p, acts[0]), acts[1..]);
    }
  }

  /** Two threads sleep in a read when two packets arrive together: one of them stays asleep beside the second. */
  lemma SwampedExample(x: Packet, y: Packet)
    ensures var acts := [Open, Read(1, INFINITE_TIME), Read(2, INFINITE_TIME), Write([x, y]), Wakeup(1, INFINITE_TIME)];
            && Legal(Fresh(PORT_BUFF_SIZE), acts)
            && var p := After(Fresh(PORT_BUFF_SIZE), acts);
            && p.queue == [y] && p.w.list == [2] && Granted(p.w) == {}
  {
    var p1 := Port([], 8, true, true, NoWaiters, {});
    var p2 := Port([], 8, true, true, Waiters([1], map[], {}), {});
    var p3 := Port([], 8, true, true, Waiters([1, 2], map[], {}), {});
    var p4 := Port([x, y], 8, true, true, Waiters([2], map[1 := NO_ERROR], {}), {});
    var p5 := Port([y], 8, true, true, Waiters([2], map[], {}), {});
    Before(p4, Wakeup(1, INFINITE_TIME), p5, []);
    Before(p3, Write([x, y]), p4, [Wakeup(1, INFINITE_TIME)]);
    Before(p2, Read(2, INFINITE_TIME), p3, [Write([x, y]), Wakeup(1, INFINITE_TIME)]);
    Before(p1, Read(1, INFINITE_TIME), p2, [Read(2, INFINITE_TIME), Write([x, y]), Wakeup(1, INFINITE_TIME)]);
    Before(Fresh(8), Open, p1,
           [Read(1, INFINITE_TIME), Read(2, INFINITE_TIME), Write([x, y]), Wakeup(1, INFINITE_TIME)]);
  }

  lemma Before(p: Port, a: Act, p': Port, acts: seq<Act>)
    requires Can(p, a) && Do(p, a) == p' && Legal(p', acts)
    ensures Legal(p, [a] + acts) && After(p, [a] + acts) == After(p', acts)
  {
    assert ([a] + acts)[1..] == acts;
  }

  /** write_port_t and the read port that has it open, if any, with the scheduler `k`.  `rq` is the wait queue of the
      read port. */
  class UnicastPort {
    const k: Scheduler
    var wbuf: Ring?
    var rbuf: Ring?
    var open: bool
    var rq: nat
    ghost var inside: set<nat>
    ghost var timed: set<nat>
    ghost var stale: set<nat>

    /** The write side has the buffer if and only if there is no reader. */
    ghost predicate Ready()
      reads this, k, wbuf, rbuf, if wbuf != null then {wbuf.packet} else {}, if rbuf != null then {rbuf.packet} else {}
    {
      && k.Valid() && (wbuf == null <==> rbuf != null)
      && (wbuf != null ==> wbuf.Valid() && inside == {})
      && (rbuf != null ==> rbuf.Valid() && Confined(k.View(), rq, inside))
    }

    ghost function View(): Port
      reads this, k, wbuf, rbuf, if wbuf != null then {wbuf.packet} else {}, if rbuf != null then {rbuf.packet} else {}
      requires Ready()
    {
      if wbuf != null then Port(wbuf.Contents(), wbuf.packet.Length, open, false, NoWaiters, stale)
      else Port(rbuf.Contents(), rbuf.packet.Length, open, true, Seen(k.View(), rq, inside, timed), stale)
    }

    ghost predicate Valid()
      reads this, k, wbuf, rbuf, if wbuf != null then {wbuf.packet} else {}, if rbuf != null then {rbuf.packet} else {}
    {
      Ready() && PortOk(View())
    }

    /** The end of port_create, for a name not in use. */
    constructor (k: Scheduler, big: bool)
      requires k.Valid()
      ensures Valid() && this.k == k && View() == Fresh(if big then PORT_BUFF_SIZE_BIG else PORT_BUFF_SIZE)
      ensures wbuf != null && fresh(wbuf) && fresh(wbuf.packet)
    {
      this.k := k;
      wbuf := new Ring(big);
      rbuf, open, rq, inside, timed, stale := null, true, 0, {}, {}, {};
    }

    /** port_open, once the named port is found; the new read port has wait queue `q`, just initialized. */
    method PortOpen(q: nat) returns (st: int)
      requires Valid() && q in k.waits && k.waits[q].list == []
      modifies this
      ensures Valid() && View() == Do(old(View()), Open)
      ensures st == if old(View()).reader then ERR_NOT_ALLOWED else NO_ERROR
      ensures if st == NO_ERROR then rbuf == old(wbuf) && rq == q else rbuf == old(rbuf) && rq == old(rq)
    {
      if wbuf != null {
        rbuf, wbuf := wbuf, null;
        rq, inside, timed := q, {}, {};
        return NO_ERROR;
      }
      return ERR_NOT_ALLOWED;
    }

    /** port_write by the current thread of `c`, with the yield that follows when it woke a reader. */
    method PortWrite(c: nat, packets: seq<Packet>) returns (st: int)
      requires Valid() && OnCpu(k.View(), c)
      modifies k, wbuf, rbuf, if wbuf != null then {wbuf.packet} else {}, if rbuf != null then {rbuf.packet} else {}
      ensures Valid() && View() == Do(old(View()), Write(packets))
      ensures st == if !open then ERR_BAD_HANDLE
                    else if |old(View()).queue| + |packets| <= old(View()).cap then NO_ERROR
                    else if old(View()).reader then ERR_PARTIAL_WRITE else ERR_NOT_ENOUGH_BUFFER
    {
      ghost var p := View();
      DoOk(p, Write(packets));
      if !open {
        return ERR_BAD_HANDLE;
      }
      if wbuf != null {
        st := wbuf.BufWrite(packets);
      } else {
        st := rbuf.BufWrite(packets);
        if st < NO_ERROR {
          return ERR_PARTIAL_WRITE;
        }
        WakeReader(c);
      }
    }

    /** The wake-up in port_write, and the yield that follows it. */
    method WakeReader(c: nat)
      requires Ready() && rbuf != null && OnCpu(k.View(), c)
      modifies k
      ensures Ready() && View() == old(View()).(w := Grant(old(View()).w))
    {
      ghost var s := k.View();
      WakeOneSeen(s, c, rq, false, inside, timed);
      var n := k.WaitQueueWakeOne(c, rq, false, NO_ERROR);
      if n > 0 {
        WakeKeepsCpu(s, c, rq);
        ForeignSeen(k.View(), Yield(c), rq, inside, timed);
        k.ThreadYield(c);
      }
    }

    /** The wait_queue_block of a read. */
    method Sleep(c: nat, timeout: nat)
      requires Ready() && rbuf != null && Enabled(k.View(), Block(c, rq)) && k.current[c] !in inside && timeout != 0
      modifies k, this`inside, this`timed
      ensures Ready() && View() == old(View()).(w := Join(old(View()).w, old(k.current[c]), timeout))
    {
      ghost var s, w := k.View(), View().w;
      ghost var t := k.current[c];
      BlockSeen(s, c, rq, inside, timed, timeout);
      var wr := k.WaitQueueBlock(c, rq, timeout);
      inside := inside + {t};
      timed := Join(w, t, timeout).timed;
    }

    /** port_read by the current thread of `c`, up to its return or to its going to sleep. */
    method PortRead(c: nat, timeout: nat) returns (r: ReadResult)
      requires Valid() && rbuf != null && Enabled(k.View(), Block(c, rq)) && Can(View(), Read(k.current[c], timeout))
      modifies this, k, rbuf
      ensures Valid() && View() == Do(old(View()), Read(old(k.current[c]), timeout))
      ensures r == if old(View()).queue != [] then Got(old(View()).queue[0])
                   else if timeout == 0 then Failed(ERR_TIMED_OUT) else Asleep
    {
      DoOk(View(), Read(k.current[c], timeout));
      var got := rbuf.BufRead();
      if got.Some? {
        return Got(got.value);
      }
      if timeout == 0 {
        return Failed(ERR_TIMED_OUT);
      }
      Sleep(c, timeout);
      return Asleep;
    }

    /** The rest of port_read when the thread runs again: back to the buffer, and to sleep again if another reader was
        there first. */
    method ReadWoken(c: nat, timeout: nat) returns (r: ReadResult)
      requires Valid() && rbuf != null && Enabled(k.View(), Block(c, rq)) && Can(View(), Wakeup(k.current[c], timeout))
      modifies this, k, rbuf
      ensures Valid() && View() == Do(old(View()), Wakeup(old(k.current[c]), timeout))
      ensures var p, t := old(View()), old(k.current[c]);
              r == if p.w.woken[t] != NO_ERROR then Failed(p.w.woken[t])
                   else if p.queue != [] then Got(p.queue[0]) else Asleep
    {
      ghost var s, p := k.View(), View();
      var t := k.current[c];
      DoOk(p, Wakeup(t, timeout));
      assert Here(s, rq, t);
      inside := inside - {t};
      assert Seen(s, rq, inside, timed) == Leaves(p.w, t);
      var wr := k.threads[t].blockRet;
      if wr != NO_ERROR {
        assert View() == Do(p, Wakeup(t, timeout));
        return Failed(wr);
      }
      var got := rbuf.BufRead();
      if got.Some? {
        assert View() == Do(p, Wakeup(t, timeout));
        return Got(got.value);
      }
      Sleep(c, timeout);
      assert View() == Do(p, Wakeup(t, timeout));
      return Asleep;
    }

    /** wait_queue_timeout_handler for a thread in a timed read. */
    method TimeoutHandler(t: nat) returns (resched: bool)
      requires Valid() && rbuf != null && Can(View(), Timeout(t))
      modifies k
      ensures Valid() && View() == Do(old(View()), Timeout(t))
      ensures resched <==> t in old(View()).w.list
    {
      ghost var s := k.View();
      DoOk(View(), Timeout(t));
      assert Here(s, rq, t);
      TimeoutSeen(s, t, rq, inside, timed);
      EvictFate(s, t, ERR_TIMED_OUT, t);
      if t in k.waits[rq].list {
        WaiterFate(s, rq, t);
      }
      var st := k.UnblockFromWaitQueue(t, ERR_TIMED_OUT);
      return st >= NO_ERROR;
    }

    /** The last reader gives the buffer back. */
    method HandBack()
      requires Valid() && rbuf != null && Can(View(), CloseRead)
      modifies this
      ensures Valid() && View() == Do(old(View()), CloseRead) && wbuf == old(rbuf) && rbuf == null && rq == old(rq)
    {
      stale := stale + Granted(View().w);
      wbuf, rbuf := rbuf, null;
      inside, timed := {}, {};
    }

    /** port_close on the read port: the buffer goes back to the write side, with what is in it, and every sleeper is
        woken with an error.  A thread that a write had woken already is left with the freed port. */
    method PortCloseRead(c: nat) returns (st: int)
      requires Valid() && rbuf != null && Can(View(), CloseRead)
      requires Enabled(k.View(), WakeAll(c, rq, true, ERR_OBJECT_DESTROYED))
      modifies this, k
      ensures Valid() && View() == Do(old(View()), CloseRead) && st == NO_ERROR && wbuf == old(rbuf)
      ensures forall t :: t in old(View()).w.list ==> t in k.threads && k.threads[t].blockRet == ERR_OBJECT_DESTROYED
      ensures k.View() == Next(old(k.View()), WakeAll(c, old(rq), true, ERR_OBJECT_DESTROYED))
    {
      ghost var p := Do(View(), CloseRead);
      HandBack();
      assert Closed(p);
      DestroyQueue(c, rq);
      assert Closed(p);
      return NO_ERROR;
    }

    /** wait_queue_destroy: every waiter of the queue is woken with an error. */
    method DestroyQueue(c: nat, q: nat)
      requires k.Valid() && Enabled(k.View(), WakeAll(c, q, true, ERR_OBJECT_DESTROYED))
      modifies k
      ensures k.Valid() && k.View() == Next(old(k.View()), WakeAll(c, q, true, ERR_OBJECT_DESTROYED))
      ensures forall t :: t in old(k.waits)[q].list ==> t in k.threads && k.threads[t].blockRet == ERR_OBJECT_DESTROYED
    {
      DestroyWakes(k.View(), c, q);
      var n := k.WaitQueueWakeAll(c, q, true, ERR_OBJECT_DESTROYED);
    }

    /** The write side has the buffer: what the scheduler does is of no concern. */
    ghost predicate Closed(p: Port)
      reads this, wbuf, if wbuf != null then {wbuf.packet} else {}
    {
      && wbuf != null && rbuf == null && wbuf.Valid() && inside == {} && PortOk(p)
      && p == Port(wbuf.Contents(), wbuf.packet.Length, open, false, NoWaiters, stale)
    }

    /** port_close on the write port: it can still be read but no longer written. */
    method PortCloseWrite() returns (st: int)
      requires Valid()
      modifies this
      ensures Valid() && st == if old(open) then NO_ERROR else ERR_BAD_HANDLE
      ensures old(open) ==> View() == Do(old(View()), CloseWrite)
      ensures !old(open) ==> View() == old(View())
    {
      if !open {
        return ERR_BAD_HANDLE;
      }
      open := false;
      return NO_ERROR;
    }
  }

  datatype ReadResult = Got(packet: Packet) | Failed(code: int) | Asleep

  /** wait_queue_destroy gives every waiter the error. */
  lemma DestroyWakes(s: Sched, c: nat, q: nat)
    requires Steady(s) && Enabled(s, WakeAll(c, q, true, ERR_OBJECT_DESTROYED))
    ensures var r := Next(s, WakeAll(c, q, true, ERR_OBJECT_DESTROYED));
            forall t :: t in s.waits[q].list ==> t in r.threads && r.threads[t].blockRet == ERR_OBJECT_DESTROYED
  {
    var r := Next(s, WakeAll(c, q, true, ERR_OBJECT_DESTROYED));
    forall t | t in s.waits[q].list ensures t in r.threads && r.threads[t].blockRet == ERR_OBJECT_DESTROYED {
      WakeEveryFate(s, c, q, true, ERR_OBJECT_DESTROYED, t);
      assert Fate(r, t) == Some((ERR_OBJECT_DESTROYED, None));
    }
  }

  /** Waking without a reschedule leaves the CPU with the thread it runs. */
  lemma WakeKeepsCpu(s: Sched, c: nat, q: nat)
    requires Steady(s) && Enabled(s, WakeOne(c, q, false, NO_ERROR))
    ensures OnCpu(Next(s, WakeOne(c, q, false, NO_ERROR)), c)
  {
    var r := Next(s, WakeOne(c, q, false, NO_ERROR));
    assert CpuOk(r, c, None);
  }
}
