/** lib/bcache/bcache.c: a write-back cache of device blocks with least-recently-used replacement. */
module Bcache {
  import opened Arith

  type Block = seq<bv8>

  datatype Slot = Slot(blocknum: nat, refs: int, dirty: bool, data: Block)

  /** `where` says which slot holds a block and `pending` which blocks a client has changed and not marked yet;
      `stamp` is the time, counted in lookups, at which a slot was last used. */
  datatype Cache = Cache(slots: seq<Slot>, free: seq<nat>, lru: seq<nat>, device: seq<Block>, size: nat,
                         where: map<nat, nat>, pending: set<nat>, stamp: map<nat, nat>, clock: nat)

  /** How a device write ends: a failed one may leave anything in the block. */
  datatype Outcome = Written | Failed(garbage: Block)

  /** A slot is free and clean, or holds a block that it alone holds; a clean block that no client has changed is
      the device's.  `hole` is a slot taken for a block that it does not hold yet. */
  ghost predicate SlotOk(s: Cache, hole: Option<nat>, i: nat) {
    i < |s.slots| ==>
      var b := s.slots[i].blocknum;
      && |s.slots[i].data| == s.size && (i in s.free <==> i !in s.lru)
      && (i in s.free ==> !s.slots[i].dirty)
      && (i in s.lru ==> i in s.stamp && s.stamp[i] < s.clock)
      && (hole == Some(i) ==> i in s.lru && !s.slots[i].dirty && s.slots[i].refs == 0)
      && (i in s.lru && hole != Some(i) ==>
            && b < |s.device| && b in s.where && s.where[b] == i && s.slots[i].refs >= 0
            && (s.slots[i].dirty || b in s.pending || s.slots[i].data == s.device[b]))
  }

  ghost predicate BlockOk(s: Cache, hole: Option<nat>, b: nat) {
    && (b in s.where ==> && b < |s.device| && s.where[b] < |s.slots| && s.where[b] in s.lru
                         && hole != Some(s.where[b]) && s.slots[s.where[b]].blocknum == b)
    && (b in s.pending ==> b in s.where && s.slots[s.where[b]].refs > 0)
    && (b < |s.device| ==> |s.device[b]| == s.size)
  }

  /** The list is in order of use, the least recently used first. */
  ghost predicate ListsOk(s: Cache) {
    && NoDup(s.free) && NoDup(s.lru)
    && (forall i :: i in s.free || i in s.lru ==> i < |s.slots|)
    && forall m, n :: 0 <= m < n < |s.lru| && s.lru[m] in s.stamp && s.lru[n] in s.stamp ==>
         s.stamp[s.lru[m]] < s.stamp[s.lru[n]]
  }

  ghost predicate Ok(s: Cache, hole: Option<nat>) {
    && ListsOk(s) && (hole.Some? ==> hole.value < |s.slots|)
    && (forall i {:trigger SlotOk(s, hole, i)} :: SlotOk(s, hole, i))
    && (forall b {:trigger BlockOk(s, hole, b)} :: BlockOk(s, hole, b))
  }

  /** At most one slot in use holds a copy of a block, and it is the one by which the block is found. */
  lemma OneCopy(s: Cache, i: nat, j: nat)
    requires Ok(s, None) && i in s.lru && j in s.lru && s.slots[i].blocknum == s.slots[j].blocknum
    ensures i == j && s.slots[i].blocknum in s.where && s.where[s.slots[i].blocknum] == i
  {
    assert SlotOk(s, None, i) && SlotOk(s, None, j);
  }

  /** What a reader of block `b` is entitled to see: the cached copy if there is one, the device otherwise. */
  ghost function Content(s: Cache, b: nat): Block
    requires b < |s.device|
  {
    if b in s.where && s.where[b] < |s.slots| then s.slots[s.where[b]].data else s.device[b]
  }

  ghost function Contents(s: Cache): seq<Block> {
    seq(|s.device|, b requires 0 <= b < |s.device| => Content(s, b))
  }

  /** How many clients hold block `b`. */
  ghost function Refs(s: Cache, b: nat): int {
    if b in s.where && s.where[b] < |s.slots| then s.slots[s.where[b]].refs else 0
  }

  /** Each block is held as often as before, give or take `n` for block `b`, and a held block has not moved. */
  ghost predicate Holds(s: Cache, s': Cache, b: nat, n: int) {
    forall d {:trigger HoldsAt(s, s', b, n, d)} :: HoldsAt(s, s', b, n, d)
  }

  ghost predicate HoldsAt(s: Cache, s': Cache, b: nat, n: int, d: nat) {
    && Refs(s', d) == Refs(s, d) + (if d == b then n else 0)
    && (Refs(s, d) > 0 ==> d in s.where && d in s'.where && s'.where[d] == s.where[d])
  }

  lemma Unmoved(s: Cache, s': Cache, b: nat, c: nat)
    requires Holds(s, s', b, 0)
    ensures Holds(s, s', c, 0)
  {
    forall d ensures HoldsAt(s, s', c, 0, d) {
      assert HoldsAt(s, s', b, 0, d);
    }
  }

  lemma HoldsTrans(s: Cache, s1: Cache, s2: Cache, b: nat, n: int)
    requires Holds(s, s1, 0, 0) && Holds(s1, s2, b, n)
    ensures Holds(s, s2, b, n)
  {
    forall d ensures HoldsAt(s, s2, b, n, d) {
      assert HoldsAt(s, s1, 0, 0, d) && HoldsAt(s1, s2, b, n, d);
    }
  }

  /** Use the slot at place `k` of the list. */
  ghost function Use(s: Cache, k: nat): Cache
    requires k < |s.lru|
  {
    s.(lru := s.lru[..k] + s.lru[k + 1..] + [s.lru[k]], stamp := s.stamp[s.lru[k] := s.clock], clock := s.clock + 1)
  }

  lemma MoveToEnd(l: seq<nat>, k: nat)
    requires k < |l| && NoDup(l)
    ensures var l' := l[..k] + l[k + 1..] + [l[k]];
            && |l'| == |l| && NoDup(l') && (forall x :: x in l' <==> x in l) && l'[|l| - 1] == l[k]
            && forall j :: 0 <= j < |l| - 1 ==> l'[j] == l[if j < k then j else j + 1]
  {
    var l' := l[..k] + l[k + 1..] + [l[k]];
    forall x ensures x in l' <==> x in l {
      if x in l {
        var n :| 0 <= n < |l| && l[n] == x;
        assert l'[if n < k then n else if n == k then |l| - 1 else n - 1] == x;
      }
    }
  }

  lemma UseOk(s: Cache, hole: Option<nat>, k: nat)
    requires Ok(s, hole) && k < |s.lru|
    ensures Ok(Use(s, k), hole) && Contents(Use(s, k)) == Contents(s) && Holds(s, Use(s, k), 0, 0)
  {
    var s' := Use(s, k);
    MoveToEnd(s.lru, k);
    forall i | i in s.lru ensures i in s.stamp && s.stamp[i] < s.clock {
      assert SlotOk(s, hole, i);
    }
    forall i ensures SlotOk(s', hole, i) {
      assert SlotOk(s, hole, i);
    }
    forall b ensures BlockOk(s', hole, b) && HoldsAt(s, s', 0, 0, b) {
      assert BlockOk(s, hole, b);
    }
  }

  /** Take the first free slot. */
  ghost function TakeFree(s: Cache): Cache
    requires s.free != [] && s.free[0] < |s.slots|
  {
    var x := s.free[0];
    s.(slots := s.slots[x := s.slots[x].(refs := 0)], free := s.free[1..], lru := s.lru + [x],
       stamp := s.stamp[x := s.clock], clock := s.clock + 1)
  }

  lemma TakeFreeOk(s: Cache)
    requires Ok(s, None) && s.free != []
    ensures s.free[0] < |s.slots| && Ok(TakeFree(s), Some(s.free[0])) && Contents(TakeFree(s)) == Contents(s)
    ensures Holds(s, TakeFree(s), 0, 0)
  {
    var x := s.free[0];
    assert x in s.free;
    var s' := TakeFree(s);
    assert forall i :: i in s'.free <==> i in s.free && i != x;
    assert SlotOk(s, None, x);
    forall i | i in s.lru ensures i in s.stamp && s.stamp[i] < s.clock {
      assert SlotOk(s, None, i);
    }
    forall i ensures SlotOk(s', Some(x), i) {
      assert SlotOk(s, None, i);
    }
    forall b ensures BlockOk(s', Some(x), b) && HoldsAt(s, s', 0, 0, b) {
      assert BlockOk(s, None, b);
    }
    forall b: nat | b < |s.device| ensures Content(s', b) == Content(s, b) {
      assert BlockOk(s, None, b);
    }
  }

  /** A dirty block goes to the device, or the write fails and the slot stays dirty. */
  ghost function Flushed(s: Cache, i: nat, out: Outcome): Cache
    requires i < |s.slots| && s.slots[i].blocknum < |s.device|
  {
    var b := s.slots[i].blocknum;
    match out
    case Written => s.(device := s.device[b := s.slots[i].data], slots := s.slots[i := s.slots[i].(dirty := false)])
    case Failed(g) => s.(device := s.device[b := g])
  }

  lemma FlushedOk(s: Cache, i: nat, out: Outcome)
    requires Ok(s, None) && i in s.lru && s.slots[i].dirty && (out.Failed? ==> |out.garbage| == s.size)
    ensures i < |s.slots| && s.slots[i].blocknum < |s.device|
    ensures Ok(Flushed(s, i, out), None) && Contents(Flushed(s, i, out)) == Contents(s)
    ensures Holds(s, Flushed(s, i, out), 0, 0)
  {
    assert SlotOk(s, None, i);
    var s' := Flushed(s, i, out);
    forall j ensures SlotOk(s', None, j) {
      assert SlotOk(s, None, j);
    }
    forall b ensures BlockOk(s', None, b) && HoldsAt(s, s', 0, 0, b) {
      assert BlockOk(s, None, b);
    }
    forall b: nat | b < |s.device| ensures Content(s', b) == Content(s, b) {
      assert BlockOk(s, None, b);
    }
  }

  /** A clean unreferenced slot gives up its block. */
  ghost function Evicted(s: Cache, i: nat): Cache
    requires i < |s.slots|
  {
    s.(where := s.where - {s.slots[i].blocknum})
  }

  lemma EvictedOk(s: Cache, i: nat)
    requires Ok(s, None) && i in s.lru && !s.slots[i].dirty && s.slots[i].refs == 0
    ensures i < |s.slots| && Ok(Evicted(s, i), Some(i)) && Contents(Evicted(s, i)) == Contents(s)
    ensures Holds(s, Evicted(s, i), 0, 0)
  {
    assert SlotOk(s, None, i);
    var s' := Evicted(s, i);
    assert BlockOk(s, None, s.slots[i].blocknum);
    forall j ensures SlotOk(s', Some(i), j) {
      assert SlotOk(s, None, j);
    }
    forall b ensures BlockOk(s', Some(i), b) && HoldsAt(s, s', 0, 0, b) {
      assert BlockOk(s, None, b);
    }
    forall b: nat | b < |s.device| ensures Content(s', b) == Content(s, b) {
      assert BlockOk(s, None, b);
    }
  }

  lemma InRange(s: Cache)
    requires Ok(s, None)
    ensures forall m :: 0 <= m < |s.lru| ==> s.lru[m] < |s.slots|
  {
    assert forall m :: 0 <= m < |s.lru| ==> s.lru[m] in s.lru;
  }

  function Zeros(n: nat): Block {
    seq(n, i => 0)
  }

  /** With no dirty slot, the device holds the contents of every block without a pending change. */
  lemma Synced(s: Cache)
    requires Ok(s, None) && forall m :: 0 <= m < |s.lru| && s.lru[m] < |s.slots| ==> !s.slots[s.lru[m]].dirty
    ensures forall b :: 0 <= b < |s.device| && b !in s.pending ==> s.device[b] == Contents(s)[b]
  {
    forall b | 0 <= b < |s.device| && b !in s.pending ensures s.device[b] == Contents(s)[b] {
      assert BlockOk(s, None, b);
      if b in s.where {
        assert SlotOk(s, None, s.where[b]);
      }
    }
  }

  /** Slot `x` is unreferenced and, of those, the one unused for longest. */
  ghost predicate LeastRecent(s: Cache, x: nat) {
    && x in s.lru && x < |s.slots| && s.slots[x].refs == 0 && x in s.stamp
    && forall i :: i in s.lru && i < |s.slots| && s.slots[i].refs == 0 ==> i in s.stamp && s.stamp[x] <= s.stamp[i]
  }

  lemma LeastRecentAt(s: Cache, n: nat)
    requires Ok(s, None) && n < |s.lru| && s.lru[n] < |s.slots| && s.slots[s.lru[n]].refs == 0
    requires forall m :: 0 <= m < n ==> s.lru[m] < |s.slots| && s.slots[s.lru[m]].refs != 0
    ensures LeastRecent(s, s.lru[n])
  {
    assert SlotOk(s, None, s.lru[n]);
    forall i | i in s.lru && i < |s.slots| && s.slots[i].refs == 0
      ensures i in s.stamp && s.stamp[s.lru[n]] <= s.stamp[i]
    {
      assert SlotOk(s, None, i);
      var m :| 0 <= m < |s.lru| && s.lru[m] == i;
      assert n <= m;
    }
  }

  /** The slot taken gets block `b`, with these contents. */
  ghost function Filled(s: Cache, x: nat, b: nat, data: Block, dirty: bool): Cache
    requires x < |s.slots|
  {
    s.(slots := s.slots[x := s.slots[x].(blocknum := b, data := data, dirty := dirty)], where := s.where[b := x])
  }

  lemma FilledOk(s: Cache, x: nat, b: nat, data: Block, dirty: bool)
    requires Ok(s, Some(x)) && b < |s.device| && b !in s.where && |data| == s.size
    requires dirty || data == s.device[b]
    ensures Ok(Filled(s, x, b, data, dirty), None)
    ensures Contents(Filled(s, x, b, data, dirty)) == Contents(s)[b := data]
    ensures Holds(s, Filled(s, x, b, data, dirty), 0, 0)
  {
    var s' := Filled(s, x, b, data, dirty);
    assert SlotOk(s, Some(x), x);
    forall j ensures SlotOk(s', None, j) {
      assert SlotOk(s, Some(x), j);
    }
    forall d ensures BlockOk(s', None, d) && HoldsAt(s, s', 0, 0, d) {
      assert BlockOk(s, Some(x), d);
    }
    forall d: nat | d < |s.device| ensures Content(s', d) == if d == b then data else Content(s, d) {
      assert BlockOk(s, Some(x), d);
    }
  }

  /** A cached block changes in place: contents, dirty flag, references. */
  ghost function Changed(s: Cache, b: nat, data: Block, dirty: bool, refs: int, pending: set<nat>): Cache
    requires b in s.where && s.where[b] < |s.slots|
  {
    var i := s.where[b];
    s.(slots := s.slots[i := s.slots[i].(data := data, dirty := dirty, refs := refs)], pending := pending)
  }

  lemma ChangedOk(s: Cache, b: nat, data: Block, dirty: bool, refs: int, pending: set<nat>)
    requires Ok(s, None) && b in s.where && |data| == s.size && refs >= 0 && pending - {b} == s.pending - {b}
    requires s.where[b] < |s.slots| && (b in pending ==> refs > 0)
    requires dirty || b in pending
             || (data == s.slots[s.where[b]].data && !s.slots[s.where[b]].dirty && b !in s.pending)
    ensures b < |s.device| && Ok(Changed(s, b, data, dirty, refs, pending), None)
    ensures Contents(Changed(s, b, data, dirty, refs, pending)) == Contents(s)[b := data]
    ensures Holds(s, Changed(s, b, data, dirty, refs, pending), b, refs - Refs(s, b))
  {
    assert BlockOk(s, None, b);
    assert SlotOk(s, None, s.where[b]);
    var s', n := Changed(s, b, data, dirty, refs, pending), refs - Refs(s, b);
    assert forall d :: d != b ==> (d in pending <==> d in s.pending) by {
      assert forall d :: d != b ==> (d in pending <==> d in pending - {b});
      assert forall d :: d != b ==> (d in s.pending <==> d in s.pending - {b});
    }
    forall j ensures SlotOk(s', None, j) {
      assert SlotOk(s, None, j);
    }
    forall d ensures BlockOk(s', None, d) && HoldsAt(s, s', b, n, d) {
      assert BlockOk(s, None, d);
    }
    forall d: nat | d < |s.device| ensures Content(s', d) == if d == b then data else Content(s, d) {
      assert BlockOk(s, None, d);
    }
  }

  class Cached {
    var slots: seq<Slot>
    var free: seq<nat>
    var lru: seq<nat>
    var device: seq<Block>
    const size: nat
    ghost var where: map<nat, nat>
    ghost var pending: set<nat>
    ghost var stamp: map<nat, nat>
    ghost var clock: nat

    ghost function View(): Cache
      reads this
    {
      Cache(slots, free, lru, device, size, where, pending, stamp, clock)
    }

    ghost predicate Valid()
      reads this
    {
      Ok(View(), None)
    }

    /** bcache_create: `count` free slots over a device, whose block size is the cache's. */
    constructor (device: seq<Block>, size: nat, count: nat)
      requires forall b :: 0 <= b < |device| ==> |device[b]| == size
      ensures Valid() && Contents(View()) == device == this.device && |slots| == count && |free| == count
      ensures this.size == size
    {
      this.device, this.size := device, size;
      slots := seq(count, i => Slot(0, 0, false, seq(size, j => 0)));
      free, lru := seq(count, i requires 0 <= i < count => count - 1 - i), [];
      where, pending, stamp, clock := map[], {}, map[], 0;
      new;
      forall i: nat ensures SlotOk(View(), None, i) {
        if i < count {
          assert free[count - 1 - i] == i;
          assert slots[i] == Slot(0, 0, false, seq(size, j => 0));
        }
      }
      assert forall b :: BlockOk(View(), None, b);
    }

    /** flush_block: the rest of the device is not written. */
    method FlushBlock(i: nat, out: Outcome) returns (ok: bool)
      requires Valid() && i in lru && i < |slots| && slots[i].dirty && slots[i].blocknum < |device|
      requires out.Failed? ==> |out.garbage| == size
      modifies this
      ensures Valid() && Contents(View()) == old(Contents(View()))
      ensures View() == Flushed(old(View()), i, out) && ok == out.Written? && Holds(old(View()), View(), 0, 0)
    {
      FlushedOk(View(), i, out);
      var b := slots[i].blocknum;
      match out {
        case Failed(g) =>
          device := device[b := g];
          return false;
        case Written =>
          device := device[b := slots[i].data];
      }
      slots := slots[i := slots[i].(dirty := false)];
      return true;
    }

    /** find_block: a hit makes the slot the most recently used. */
    method FindBlock(b: nat) returns (r: Option<nat>, ghost k: nat)
      requires Valid()
      modifies this
      ensures Valid() && Contents(View()) == old(Contents(View()))
      ensures r == if b in old(where) then Some(old(where)[b]) else None
      ensures Holds(old(View()), View(), 0, 0)
      ensures if r.None? then View() == old(View())
              else && k < |old(lru)| && old(lru)[k] == r.value && slots == old(slots) && device == old(device)
                   && lru == old(lru)[..k] + old(lru)[k + 1..] + [r.value] && free == old(free)
                   && stamp == old(stamp)[r.value := old(clock)] && clock == old(clock) + 1
                   && where == old(where) && pending == old(pending)
    {
      ghost var s := View();
      k := 0;
      var n := 0;
      InRange(s);
      while n < |lru|
        invariant n <= |lru| && View() == s
        invariant forall m :: 0 <= m < n ==> slots[lru[m]].blocknum != b
      {
        assert SlotOk(s, None, lru[n]);
        if slots[lru[n]].blocknum == b {
          UseOk(s, None, n);
          k := n;
          r := Some(lru[n]);
          lru := lru[..n] + lru[n + 1..] + [lru[n]];
          stamp, clock := stamp[r.value := clock], clock + 1;
          return;
        }
        n := n + 1;
      }
      assert BlockOk(s, None, b) && forall d :: HoldsAt(s, s, 0, 0, d);
      r := None;
    }

    /** The end of alloc_block: write back the slot at place `n` of the list if need be, and take it. */
    method EvictAt(n: nat, out: Outcome) returns (r: Option<nat>)
      requires Valid() && (out.Failed? ==> |out.garbage| == size) && n < |lru| && lru[n] < |slots|
      requires slots[lru[n]].refs == 0
      modifies this
      ensures Ok(View(), r) && Contents(View()) == old(Contents(View())) && |device| == |old(device)|
      ensures |slots| == |old(slots)| && pending == old(pending)
      ensures slots == old(slots)[old(lru)[n] := slots[old(lru)[n]]]
      ensures r.Some? ==> r.value == old(lru)[n] && where == old(where) - {old(slots)[r.value].blocknum}
      ensures r.None? ==> where == old(where) && out.Failed?
      ensures r.Some? ==> lru != [] && lru[|lru| - 1] == r.value && stamp == old(stamp)[r.value := old(clock)]
      ensures Holds(old(View()), View(), 0, 0)
    {
      ghost var s := View();
      assert forall d :: HoldsAt(s, s, 0, 0, d);
      var x := lru[n];
      assert SlotOk(View(), None, x);
      if slots[x].dirty {
        var ok := FlushBlock(x, out);
        if !ok {
          return None;
        }
      }
      TakeSlot(n, s);
      return Some(x);
    }

    /** Make the clean slot at place `n` of the list the most recent one and forget its block. */
    method TakeSlot(n: nat, ghost s: Cache)
      requires Valid() && n < |lru| && lru[n] < |slots| && !slots[lru[n]].dirty && slots[lru[n]].refs == 0
      requires Holds(s, View(), 0, 0)
      modifies this`lru, this`stamp, this`clock, this`where
      ensures Ok(View(), Some(old(lru)[n])) && Contents(View()) == old(Contents(View())) && Holds(s, View(), 0, 0)
      ensures where == old(where) - {slots[old(lru)[n]].blocknum}
      ensures lru == old(lru)[..n] + old(lru)[n + 1..] + [old(lru)[n]]
      ensures stamp == old(stamp)[old(lru)[n] := old(clock)]
    {
      ghost var s1 := View();
      var x := lru[n];
      UseOk(s1, None, n);
      MoveToEnd(lru, n);
      lru := lru[..n] + lru[n + 1..] + [lru[n]];
      stamp, clock := stamp[x := clock], clock + 1;
      EvictedOk(View(), x);
      HoldsTrans(s, s1, View(), 0, 0);
      HoldsTrans(s, View(), Evicted(View(), x), 0, 0);
      where := where - {slots[x].blocknum};
    }

    /** Take the first free slot. */
    method TakeFree() returns (x: nat)
      requires Valid() && free != []
      modifies this
      ensures Ok(View(), Some(x)) && Contents(View()) == old(Contents(View())) && Holds(old(View()), View(), 0, 0)
      ensures x == old(free)[0] && |device| == |old(device)| && |slots| == |old(slots)|
      ensures pending == old(pending) && where == old(where) && device == old(device)
      ensures lru == old(lru) + [x] && stamp == old(stamp)[x := old(clock)]
    {
      TakeFreeOk(View());
      x := free[0];
      free := free[1..];
      slots := slots[x := slots[x].(refs := 0)];
      lru := lru + [x];
      stamp, clock := stamp[x := clock], clock + 1;
    }

    /** alloc_block: a free slot, or else the least recently used one that nobody holds, written back first if
        it is dirty.  None when every slot is held or the write fails. */
    method AllocBlock(out: Outcome) returns (r: Option<nat>)
      requires Valid() && (out.Failed? ==> |out.garbage| == size)
      modifies this
      ensures Ok(View(), r) && Contents(View()) == old(Contents(View())) && |device| == |old(device)|
      ensures |slots| == |old(slots)| && pending == old(pending) && Holds(old(View()), View(), 0, 0)
      ensures forall b :: b in where ==> b in old(where) && where[b] == old(where)[b]
      ensures r.Some? && old(free) != [] ==> r.value == old(free)[0]
      ensures r.Some? && old(free) == [] ==> r.value < |slots| && LeastRecent(old(View()), r.value)
      ensures r.Some? ==> lru != [] && lru[|lru| - 1] == r.value && stamp == old(stamp)[r.value := old(clock)]
      ensures r.None? ==> && old(free) == []
                          && ((forall i :: i in old(lru) && i < |slots| ==> old(slots)[i].refs != 0) || out.Failed?)
    {
      ghost var s := View();
      assert forall d :: HoldsAt(s, s, 0, 0, d);
      if free != [] {
        var x := TakeFree();
        return Some(x);
      }
      var n := 0;
      InRange(s);
      while n < |lru|
        invariant n <= |lru| && View() == s
        invariant forall m :: 0 <= m < n ==> slots[lru[m]].refs != 0
      {
        if slots[lru[n]].refs == 0 {
          LeastRecentAt(s, n);
          r := EvictAt(n, out);
          return;
        }
        n := n + 1;
      }
      return None;
    }

    /** find_or_fill_block for a block of the device, whose reads succeed.  None is the assertion that a slot
        could be found. */
    method FindOrFill(b: nat, out: Outcome) returns (r: Option<nat>)
      requires Valid() && b < |device| && (out.Failed? ==> |out.garbage| == size)
      modifies this
      ensures Valid() && Contents(View()) == old(Contents(View())) && pending == old(pending)
      ensures r.Some? ==> b in where && r.value == where[b] < |slots| && slots[r.value].data == Contents(View())[b]
      ensures b in old(where) ==> r.Some? && slots == old(slots) && device == old(device) && where == old(where)
      ensures Holds(old(View()), View(), 0, 0)
      ensures r.None? ==> && old(free) == []
                          && ((forall i :: i in old(lru) && i < |slots| ==> old(slots)[i].refs != 0) || out.Failed?)
    {
      ghost var s := View();
      ghost var k;
      r, k := FindBlock(b);
      assert BlockOk(s, None, b);
      if r == None {
        r := AllocBlock(out);
        if r == None {
          return;
        }
        FillSlot(r.value, b, s);
      }
    }

    /** Read block `b` into slot `x`, which was taken for it. */
    method FillSlot(x: nat, b: nat, ghost was: Cache)
      requires Ok(View(), Some(x)) && b < |device| && b !in where && Holds(was, View(), 0, 0)
      modifies this`slots, this`where
      ensures Valid() && Contents(View()) == old(Contents(View())) && Holds(was, View(), 0, 0)
      ensures x < |slots| == |old(slots)| && where == old(where)[b := x] && slots[x].data == device[b]
      ensures slots[x].data == Contents(View())[b]
    {
      assert BlockOk(View(), Some(x), b) && SlotOk(View(), Some(x), x);
      FilledOk(View(), x, b, device[b], false);
      HoldsTrans(was, View(), Filled(View(), x, b, device[b], false), 0, 0);
      slots := slots[x := slots[x].(blocknum := b, data := device[b])];
      where := where[b := x];
    }

    /** bcache_read_block */
    method ReadBlock(b: nat, out: Outcome) returns (r: Option<Block>)
      requires Valid() && b < |device| && (out.Failed? ==> |out.garbage| == size)
      modifies this
      ensures Valid() && Contents(View()) == old(Contents(View())) && pending == old(pending)
      ensures r.Some? ==> r.value == old(Contents(View()))[b]
      ensures Holds(old(View()), View(), 0, 0)
      ensures r.None? ==> old(free) == [] && b !in old(where)
    {
      var x := FindOrFill(b, out);
      if x == None {
        return None;
      }
      return Some(slots[x.value].data);
    }

    /** bcache_get_block: the block stays in the slot while the caller holds it. */
    method GetBlock(b: nat, out: Outcome) returns (r: Option<nat>)
      requires Valid() && b < |device| && (out.Failed? ==> |out.garbage| == size)
      modifies this
      ensures Valid() && Contents(View()) == old(Contents(View())) && pending == old(pending)
      ensures r.Some? ==> b in where && r.value == where[b] < |slots| && slots[r.value].refs > 0
      ensures r.None? ==> old(free) == [] && b !in old(where)
      ensures Holds(old(View()), View(), b, if r.Some? then 1 else 0)
    {
      r := FindOrFill(b, out);
      if r == None {
        Unmoved(old(View()), View(), 0, b);
        return;
      } else {
        ghost var s := View();
        assert BlockOk(s, None, b) && SlotOk(s, None, r.value);
        var slot := slots[r.value];
        ChangedOk(s, b, slot.data, slot.dirty, slot.refs + 1, pending);
        ghost var after := Changed(s, b, slot.data, slot.dirty, slot.refs + 1, pending);
        HoldsTrans(old(View()), s, after, b, 1);
        slots := slots[r.value := slot.(refs := slot.refs + 1)];
        assert View() == after;
        return;
      }
    }

    /** bcache_put_block by a client that holds the block and has marked what it changed. */
    method PutBlock(b: nat)
      requires Valid() && Refs(View(), b) > 0 && (Refs(View(), b) == 1 ==> b !in pending)
      modifies this
      ensures Valid() && Contents(View()) == old(Contents(View())) && pending == old(pending)
      ensures Holds(old(View()), View(), b, -1)
    {
      assert HoldsAt(View(), View(), 0, 0, b);
      var x, k := FindBlock(b);
      ghost var s := View();
      assert HoldsAt(old(View()), s, 0, 0, b);
      assert BlockOk(s, None, b) && SlotOk(s, None, x.value);
      var slot := slots[x.value];
      ChangedOk(s, b, slot.data, slot.dirty, slot.refs - 1, pending);
      ghost var after := Changed(s, b, slot.data, slot.dirty, slot.refs - 1, pending);
      HoldsTrans(old(View()), s, after, b, -1);
      slots := slots[x.value := slot.(refs := slot.refs - 1)];
      assert View() == after;
    }

    /** A client writes through the pointer bcache_get_block gave it: slot `x`, while it holds the block. */
    method ClientWrite(b: nat, x: nat, data: Block)
      requires Valid() && Refs(View(), b) > 0 && b < |device| && x == where[b] && |data| == size
      modifies this
      ensures Valid() && Contents(View()) == old(Contents(View()))[b := data]
      ensures pending == old(pending) + {b} && Holds(old(View()), View(), 0, 0) && device == old(device)
    {
      ghost var s := View();
      assert BlockOk(s, None, b);
      ChangedOk(s, b, data, slots[x].dirty, slots[x].refs, pending + {b});
      Unmoved(s, Changed(s, b, data, slots[x].dirty, slots[x].refs, pending + {b}), b, 0);
      slots := slots[x := slots[x].(data := data)];
      pending := pending + {b};
    }

    /** bcache_mark_block_dirty; false is its error for a block that is not cached. */
    method MarkBlockDirty(b: nat) returns (ok: bool)
      requires Valid()
      modifies this
      ensures Valid() && Contents(View()) == old(Contents(View())) && ok == (b in old(where))
      ensures pending == old(pending) - {b} && Holds(old(View()), View(), 0, 0) && device == old(device)
    {
      var x, k := FindBlock(b);
      ghost var s := View();
      assert BlockOk(s, None, b);
      if x == None {
        return false;
      }
      assert SlotOk(s, None, x.value);
      ChangedOk(s, b, slots[x.value].data, true, slots[x.value].refs, pending - {b});
      Unmoved(s, Changed(s, b, slots[x.value].data, true, slots[x.value].refs, pending - {b}), b, 0);
      HoldsTrans(old(View()), s, Changed(s, b, slots[x.value].data, true, slots[x.value].refs, pending - {b}), 0, 0);
      slots := slots[x.value := slots[x.value].(dirty := true)];
      pending := pending - {b};
      return true;
    }

    /** bcache_zero_block; false is its error when no slot can be had. */
    method ZeroBlock(b: nat, out: Outcome) returns (ok: bool)
      requires Valid() && b < |device| && (out.Failed? ==> |out.garbage| == size)
      modifies this
      ensures Valid() && Holds(old(View()), View(), 0, 0)
      ensures Contents(View()) == if ok then old(Contents(View()))[b := Zeros(size)] else old(Contents(View()))
      ensures pending == old(pending) - if ok then {b} else {}
      ensures !ok ==> && old(free) == [] && b !in old(where)
                      && ((forall i :: i in old(lru) && i < |slots| ==> old(slots)[i].refs != 0) || out.Failed?)
    {
      var r, k := FindBlock(b);
      if r == None {
        ok := ZeroMissing(b, out, old(View()));
        return;
      } else {
        ZeroCached(b, r.value, old(View()));
        return true;
      }
    }

    /** The block is not cached: take a slot for it. */
    method ZeroMissing(b: nat, out: Outcome, ghost was: Cache) returns (ok: bool)
      requires Valid() && b < |device| && b !in where && (out.Failed? ==> |out.garbage| == size)
      requires Holds(was, View(), 0, 0)
      modifies this
      ensures Valid() && Holds(was, View(), 0, 0) && |slots| == |old(slots)|
      ensures Contents(View()) == if ok then old(Contents(View()))[b := Zeros(size)] else old(Contents(View()))
      ensures pending == old(pending) - if ok then {b} else {}
      ensures !ok ==> && old(free) == []
                      && ((forall i :: i in old(lru) && i < |slots| ==> old(slots)[i].refs != 0) || out.Failed?)
    {
      assert BlockOk(View(), None, b);
      var r := AllocBlock(out);
      HoldsTrans(was, old(View()), View(), 0, 0);
      if r == None {
        return false;
      }
      var x := r.value;
      assert BlockOk(View(), Some(x), b) && SlotOk(View(), Some(x), x);
      FilledOk(View(), x, b, Zeros(size), true);
      ghost var after := Filled(View(), x, b, Zeros(size), true);
      HoldsTrans(was, View(), after, 0, 0);
      slots := slots[x := slots[x].(blocknum := b)];
      where := where[b := x];
      ZeroSlot(x, b);
      assert View() == after;
      return true;
    }

    /** The block is in slot `x`. */
    method ZeroCached(b: nat, x: nat, ghost was: Cache)
      requires Valid() && b < |device| && b in where && where[b] == x && Holds(was, View(), 0, 0)
      modifies this
      ensures Valid() && |device| == |old(device)| && Holds(was, View(), 0, 0)
      ensures Contents(View()) == old(Contents(View()))[b := Zeros(size)] && pending == old(pending) - {b}
    {
      ghost var s := View();
      assert BlockOk(s, None, b) && SlotOk(s, None, x);
      ghost var after := Changed(s, b, Zeros(size), true, slots[x].refs, pending - {b});
      ChangedOk(s, b, Zeros(size), true, slots[x].refs, pending - {b});
      Unmoved(s, after, b, 0);
      HoldsTrans(was, s, after, 0, 0);
      ZeroSlot(x, b);
      assert View() == after;
    }

    /** The end of bcache_zero_block. */
    method ZeroSlot(x: nat, b: nat)
      requires x < |slots|
      modifies this`slots, this`pending
      ensures slots == old(slots)[x := old(slots)[x].(data := Zeros(size), dirty := true)]
      ensures pending == old(pending) - {b}
    {
      slots := slots[x := slots[x].(data := Zeros(size), dirty := true)];
      pending := pending - {b};
    }

    /** bcache_flush.  `outs(n)` is how the write for place `n` of the list ends; it stops at the first that fails. */
    method Flush(outs: nat -> Outcome) returns (ok: bool)
      requires Valid() && forall n: nat :: outs(n).Failed? ==> |outs(n).garbage| == size
      modifies this
      ensures Valid() && Contents(View()) == old(Contents(View())) && pending == old(pending) && where == old(where)
      ensures Holds(old(View()), View(), 0, 0) && |device| == |old(device)|
      ensures ok ==> forall b :: 0 <= b < |device| && b !in pending ==> device[b] == old(Contents(View()))[b]
      ensures !ok ==> exists n: nat :: n < |old(lru)| && outs(n).Failed?
    {
      var n := 0;
      InRange(View());
      assert forall d :: HoldsAt(View(), View(), 0, 0, d);
      while n < |lru|
        invariant n <= |lru| == |old(lru)| && Valid() && Contents(View()) == old(Contents(View()))
        invariant pending == old(pending) && where == old(where) && lru == old(lru) && |slots| == |old(slots)|
        invariant |device| == |old(device)| && forall m :: 0 <= m < |lru| ==> lru[m] < |slots|
        invariant forall m :: 0 <= m < n ==> !slots[lru[m]].dirty
        invariant Holds(old(View()), View(), 0, 0)
      {
        if slots[lru[n]].dirty {
          ghost var s := View();
          FlushedOk(s, lru[n], outs(n));
          ok := FlushBlock(lru[n], outs(n));
          HoldsTrans(old(View()), s, View(), 0, 0);
          if !ok {
            return;
          }
        }
        n := n + 1;
      }
      Synced(View());
      return true;
    }
  }
}
