/** The physical page allocator of kernel/vm/pmm.c.

    A page (`vm_page_t`) is named by its physical address.  The arena list, each arena's
    page flags and each arena's free list are sequences that the methods replace, as the
    source relinks its lists. */
module Pmm {
  import opened Arith

  const PAGE_SIZE: nat := 4096
  const PAGE_SIZE_SHIFT: nat := 12

  const UINT: nat := 0x1_0000_0000

  datatype Arena = Arena(base: nat, kmap: bool, priority: nat,
                         nonfree: seq<bool>, freeList: seq<nat>, freeCount: nat)
  {
    function Addr(i: nat): nat {
      base + i * PAGE_SIZE
    }

    /** ADDRESS_IN_ARENA */
    predicate Holds(a: nat) {
      base <= a < base + |nonfree| * PAGE_SIZE
    }

    /** The flags, the free list and the free count tell the same story. */
    ghost predicate Valid() {
      && |nonfree| > 0
      && base % PAGE_SIZE == 0
      && NoDup(freeList)
      && freeCount == |freeList|
      && (forall n :: 0 <= n < |freeList| ==> freeList[n] < |nonfree| && !nonfree[freeList[n]])
      && (forall i :: 0 <= i < |nonfree| && !nonfree[i] ==> i in freeList)
    }

    ghost predicate Apart(b: Arena) {
      base + |nonfree| * PAGE_SIZE <= b.base || b.base + |b.nonfree| * PAGE_SIZE <= base
    }

    /** Clear the flag of page `i` and put it at the head of the free list. */
    function Give(i: nat): Arena
      requires i < |nonfree|
    {
      this.(nonfree := nonfree[i := false], freeList := [i] + freeList, freeCount := freeCount + 1)
    }

    /** The addresses on the free list, in order. */
    ghost function Queue(): (q: seq<nat>)
      ensures |q| == |freeList| && forall i :: 0 <= i < |q| ==> q[i] == Addr(freeList[i])
    {
      seq(|freeList|, i requires 0 <= i < |freeList| => Addr(freeList[i]))
    }

    /** Take page `i` off the free list and flag it. */
    function Take(i: nat, j: nat): Arena
      requires j < |freeList| && freeList[j] == i < |nonfree| && freeCount > 0
    {
      this.(nonfree := nonfree[i := true],
            freeList := freeList[..j] + freeList[j + 1..],
            freeCount := freeCount - 1)
    }
  }

  /** Every free page, arena by arena in list order, each arena's in free-list order. */
  ghost function FreeQueue(arenas: seq<Arena>): seq<nat> {
    if arenas == [] then [] else arenas[0].Queue() + FreeQueue(arenas[1..])
  }

  /** `a` is the address of a page of some arena. */
  ghost predicate IsPage(arenas: seq<Arena>, a: nat) {
    a % PAGE_SIZE == 0 && exists k :: 0 <= k < |arenas| && arenas[k].Holds(a)
  }

  ghost predicate IsFree(arenas: seq<Arena>, a: nat) {
    exists k: nat, i: nat :: FreeAt(arenas, a, k, i)
  }

  ghost predicate FreeAt(arenas: seq<Arena>, a: nat, k: nat, i: nat) {
    k < |arenas| && i < |arenas[k].nonfree| && !arenas[k].nonfree[i] && a == arenas[k].Addr(i)
  }

  ghost predicate ValidArenas(arenas: seq<Arena>) {
    && (forall k :: 0 <= k < |arenas| ==> arenas[k].Valid())
    && (forall k, l :: 0 <= k < l < |arenas| ==> arenas[k].Apart(arenas[l]))
    && (forall k, l :: 0 <= k < l < |arenas| ==> arenas[k].priority <= arenas[l].priority)
  }

  /** Same arenas covering the same pages; only allocation state may differ. */
  ghost predicate SameShape(a: seq<Arena>, b: seq<Arena>) {
    && |a| == |b|
    && forall k :: 0 <= k < |a| ==> a[k].base == b[k].base && a[k].kmap == b[k].kmap
                                    && a[k].priority == b[k].priority && |a[k].nonfree| == |b[k].nonfree|
  }

  lemma {:induction false} FreeQueueIsFree(arenas: seq<Arena>, a: nat)
    requires forall k :: 0 <= k < |arenas| ==> arenas[k].Valid()
    ensures a in FreeQueue(arenas) <==> IsFree(arenas, a)
  {
    if arenas != [] {
      FreeQueueIsFree(arenas[1..], a);
      if IsFree(arenas, a) {
        var k: nat, i: nat :| FreeAt(arenas, a, k, i);
        if k == 0 {
          var n :| 0 <= n < |arenas[0].freeList| && arenas[0].freeList[n] == i;
          assert FreeQueue(arenas)[n] == a;
        } else {
          assert FreeAt(arenas[1..], a, k - 1, i);
        }
      }
      if IsFree(arenas[1..], a) {
        var k: nat, i: nat :| FreeAt(arenas[1..], a, k, i);
        assert FreeAt(arenas, a, k + 1, i);
      }
      if a in FreeQueue(arenas) && a !in FreeQueue(arenas[1..]) {
        var n :| 0 <= n < |arenas[0].freeList| && arenas[0].Addr(arenas[0].freeList[n]) == a;
        assert FreeAt(arenas, a, 0, arenas[0].freeList[n]);
      }
    }
  }

  lemma {:induction false} FreeQueueNoDup(arenas: seq<Arena>)
    requires ValidArenas(arenas)
    ensures NoDup(FreeQueue(arenas))
  {
    if arenas != [] {
      var rest := arenas[1..];
      FreeQueueNoDup(rest);
      var q, n := FreeQueue(arenas), |arenas[0].freeList|;
      forall x, y | 0 <= x < y < |q| ensures q[x] != q[y] {
        if y >= n {
          assert q[y] == FreeQueue(rest)[y - n];
          if x < n {
            FreeQueueIsFree(rest, q[y]);
            var k: nat, i: nat :| FreeAt(rest, q[y], k, i);
            assert arenas[0].Apart(arenas[k + 1]);
          } else {
            assert q[x] == FreeQueue(rest)[x - n];
          }
        }
      }
    }
  }

  /** Removing entry `j` of arena `k`'s free list removes that one address from the queue. */
  ghost function QueuePos(arenas: seq<Arena>, k: nat, j: nat): nat
    requires k < |arenas|
  {
    if k == 0 then j else |arenas[0].freeList| + QueuePos(arenas[1..], k - 1, j)
  }

  lemma {:induction false} TakeQueue(arenas: seq<Arena>, k: nat, j: nat)
    requires k < |arenas| && j < |arenas[k].freeList| && arenas[k].freeCount > 0
    requires arenas[k].freeList[j] < |arenas[k].nonfree|
    ensures var p, q := QueuePos(arenas, k, j), FreeQueue(arenas);
            && p < |q| && q[p] == arenas[k].Addr(arenas[k].freeList[j])
            && FreeQueue(arenas[k := arenas[k].Take(arenas[k].freeList[j], j)]) == q[..p] + q[p + 1..]
  {
    var b := arenas[k := arenas[k].Take(arenas[k].freeList[j], j)];
    if k == 0 {
      assert b[1..] == arenas[1..];
      TakeFront(arenas[0], j, FreeQueue(arenas[1..]));
    } else {
      TakeQueue(arenas[1..], k - 1, j);
      assert b[1..] == arenas[1..][k - 1 := b[k]];
    }
  }

  lemma TakeFront(a: Arena, j: nat, rest: seq<nat>)
    requires j < |a.freeList| && a.freeCount > 0 && a.freeList[j] < |a.nonfree|
    ensures var q, b := a.Queue() + rest, a.Take(a.freeList[j], j);
            j < |q| && q[j] == a.Addr(a.freeList[j]) && b.Queue() + rest == q[..j] + q[j + 1..]
  {
    var q, b := a.Queue(), a.Take(a.freeList[j], j);
    assert b.Queue() == q[..j] + q[j + 1..];
    assert q[..j] + q[j + 1..] + rest == (q + rest)[..j] + (q + rest)[j + 1..];
  }

  lemma GiveValid(a: Arena, i: nat)
    requires a.Valid() && i < |a.nonfree| && a.nonfree[i]
    ensures a.Give(i).Valid()
  {
    var b := a.Give(i);
    forall x | 0 <= x < |b.nonfree| && !b.nonfree[x] ensures x in b.freeList {
      if x != i {
        var n :| 0 <= n < |a.freeList| && a.freeList[n] == x;
        assert b.freeList[n + 1] == x;
      } else {
        assert b.freeList[0] == x;
      }
    }
  }

  /** Giving a page back adds that one address to the queue. */
  lemma {:induction false} GiveQueue(arenas: seq<Arena>, k: nat, i: nat)
    requires k < |arenas| && i < |arenas[k].nonfree|
    ensures var b := FreeQueue(arenas[k := arenas[k].Give(i)]);
            && |b| == |FreeQueue(arenas)| + 1
            && Elems(b) == Elems(FreeQueue(arenas)) + {arenas[k].Addr(i)}
    decreases k
  {
    var b := arenas[k := arenas[k].Give(i)];
    var q, q' := FreeQueue(arenas[1..]), FreeQueue(b[1..]);
    if k == 0 {
      assert b[1..] == arenas[1..];
      assert b[0].Queue() == [arenas[0].Addr(i)] + arenas[0].Queue();
      ElemsJoin([arenas[0].Addr(i)] + arenas[0].Queue(), q);
      ElemsJoin([arenas[0].Addr(i)], arenas[0].Queue());
      ElemsJoin(arenas[0].Queue(), q);
    } else {
      assert b[1..] == arenas[1..][k - 1 := arenas[k].Give(i)];
      GiveQueue(arenas[1..], k - 1, i);
      ElemsJoin(arenas[0].Queue(), q);
      ElemsJoin(arenas[0].Queue(), q');
    }
  }

  /** Only arena `at` changed: the page, which lies in it, was given back. */
  ghost predicate PutBack(arenas: seq<Arena>, arenas': seq<Arena>, at: nat, p: nat) {
    && at < |arenas| && arenas[at].Holds(p)
    && arenas' == arenas[at := arenas[at].Give((p - arenas[at].base) / PAGE_SIZE)]
  }

  /** A page given back is first on its arena's list, and counted. */
  lemma GiveFirst(a: Arena, i: nat)
    requires i < |a.nonfree|
    ensures a.Give(i).Queue() == [a.Addr(i)] + a.Queue() && a.Give(i).freeCount == a.freeCount + 1
    ensures a.Give(i).nonfree == a.nonfree[i := false]
  {
    var q := [a.Addr(i)] + a.Queue();
    assert |a.Give(i).Queue()| == |q| && forall j :: 0 <= j < |q| ==> a.Give(i).Queue()[j] == q[j];
  }

  lemma ElemsJoin(a: seq<nat>, b: seq<nat>)
    ensures Elems(a + b) == Elems(a) + Elems(b)
  {
  }

  lemma {:induction false} QueuePosFirst(arenas: seq<Arena>, k: nat)
    requires k < |arenas|
    requires forall l :: 0 <= l < k ==> arenas[l].freeList == []
    ensures QueuePos(arenas, k, 0) == 0
  {
    if k > 0 {
      QueuePosFirst(arenas[1..], k - 1);
    }
  }

  lemma {:induction false} QueueEmpty(arenas: seq<Arena>)
    requires forall l :: 0 <= l < |arenas| ==> arenas[l].freeList == []
    ensures FreeQueue(arenas) == []
  {
    if arenas != [] {
      QueueEmpty(arenas[1..]);
    }
  }

  lemma TakeValid(a: Arena, j: nat)
    requires a.Valid() && j < |a.freeList|
    ensures a.Take(a.freeList[j], j).Valid()
  {
    var b := a.Take(a.freeList[j], j);
    forall i | 0 <= i < |b.nonfree| && !b.nonfree[i] ensures i in b.freeList {
      var n :| 0 <= n < |a.freeList| && a.freeList[n] == i;
      assert b.freeList[if n < j then n else n - 1] == i;
    }
  }

  /** The arena `pmm_add_arena` builds: every page free, listed in address order. */
  function FreshArena(base: nat, pageCount: nat, kmap: bool, priority: nat): (a: Arena) {
    Arena(base, kmap, priority, seq(pageCount, i => false), seq(pageCount, i => i), pageCount)
  }

  /** The new arena stands after every arena of its own or a lower priority and before all others. */
  ghost predicate InsertedAt(before: seq<Arena>, arenas: seq<Arena>, k: nat, a: Arena) {
    && k <= |before| && arenas == before[..k] + [a] + before[k..]
    && (forall l :: 0 <= l < k ==> before[l].priority <= a.priority)
    && (forall l :: k <= l < |before| ==> before[l].priority > a.priority)
  }

  lemma InsertValid(arenas: seq<Arena>, k: nat, a: Arena)
    requires ValidArenas(arenas) && a.Valid() && k <= |arenas|
    requires forall l :: 0 <= l < |arenas| ==> arenas[l].Apart(a)
    requires forall l :: 0 <= l < k ==> arenas[l].priority <= a.priority
    requires k < |arenas| ==> arenas[k].priority > a.priority
    ensures ValidArenas(arenas[..k] + [a] + arenas[k..])
  {
    var b := arenas[..k] + [a] + arenas[k..];
    forall l, m | 0 <= l < m < |b| ensures b[l].Apart(b[m]) && b[l].priority <= b[m].priority {
      var l', m' := if l < k then l else l - 1, if m < k then m else m - 1;
      if l == k {
        assert arenas[m'].Apart(a) && b[m] == arenas[m'];
      } else if m == k {
        assert arenas[l'].Apart(a) && b[l] == arenas[l'];
      } else {
        assert arenas[l'].Apart(arenas[m']) && b[l] == arenas[l'] && b[m] == arenas[m'];
      }
    }
  }

  lemma InsertPages(arenas: seq<Arena>, k: nat, a: Arena)
    requires k <= |arenas| && a.base % PAGE_SIZE == 0
    ensures forall p: nat :: IsPage(arenas[..k] + [a] + arenas[k..], p)
                             <==> IsPage(arenas, p) || p in Run(a.base, |a.nonfree|)
  {
    var b := arenas[..k] + [a] + arenas[k..];
    forall p: nat ensures IsPage(b, p) <==> IsPage(arenas, p) || p in Run(a.base, |a.nonfree|) {
      InRun(a.base, |a.nonfree|, p);
      if IsPage(b, p) {
        var l :| 0 <= l < |b| && b[l].Holds(p);
        if l != k {
          assert arenas[if l < k then l else l - 1].Holds(p);
        }
      }
      if IsPage(arenas, p) {
        var l :| 0 <= l < |arenas| && arenas[l].Holds(p);
        assert b[if l < k then l else l + 1].Holds(p);
      }
      if p in Run(a.base, |a.nonfree|) {
        assert b[k].Holds(p);
      }
    }
  }

  lemma InRun(base: nat, n: nat, p: nat)
    requires base % PAGE_SIZE == 0
    ensures p in Run(base, n) <==> p % PAGE_SIZE == 0 && base <= p < base + n * PAGE_SIZE
  {
    if p in Run(base, n) {
      var x :| 0 <= x < n && Run(base, n)[x] == p;
    }
    if p % PAGE_SIZE == 0 && base <= p < base + n * PAGE_SIZE {
      assert Run(base, n)[(p - base) / PAGE_SIZE] == p;
    }
  }

  lemma UpdateValid(arenas: seq<Arena>, k: nat, a: Arena)
    requires ValidArenas(arenas) && k < |arenas| && a.Valid()
    requires a.base == arenas[k].base && |a.nonfree| == |arenas[k].nonfree|
    requires a.priority == arenas[k].priority && a.kmap == arenas[k].kmap
    ensures ValidArenas(arenas[k := a]) && SameShape(arenas, arenas[k := a])
  {
    var b := arenas[k := a];
    forall l, m | 0 <= l < m < |b| ensures b[l].Apart(b[m]) && b[l].priority <= b[m].priority {
      assert arenas[l].Apart(arenas[m]);
    }
  }

  lemma SameShapePages(a: seq<Arena>, b: seq<Arena>, p: nat)
    requires SameShape(a, b)
    ensures IsPage(a, p) <==> IsPage(b, p)
  {
    if IsPage(a, p) {
      var k :| 0 <= k < |a| && a[k].Holds(p);
      assert b[k].Holds(p);
    }
    if IsPage(b, p) {
      var k :| 0 <= k < |b| && b[k].Holds(p);
      assert a[k].Holds(p);
    }
  }

  lemma DropHead(q: seq<nat>)
    requires q != []
    ensures q[..0] + q[1..] == q[1..] && q == [q[0]] + q[1..]
  {
  }

  lemma ConcatAssoc(a: seq<nat>, b: seq<nat>, c: seq<nat>)
    ensures a + (b + c) == (a + b) + c
  {
  }

  lemma RemoveOne(q: seq<nat>, n: nat)
    requires n < |q| && NoDup(q)
    ensures Elems(q[..n] + q[n + 1..]) == Elems(q) - {q[n]} && q[n] in Elems(q)
  {
    assert q == q[..n] + [q[n]] + q[n + 1..];
  }

  lemma SplitQueue(q: seq<nat>, list: seq<nat>, rest: seq<nat>)
    requires NoDup(q) && q == list + rest
    ensures NoDup(list) && Elems(rest) !! Elems(list)
    ensures Elems(q) == Elems(rest) + Elems(list)
  {
    forall x, y | 0 <= x < |list| && 0 <= y < |rest| ensures list[x] != rest[y] {
      assert q[x] == list[x] && q[|list| + y] == rest[y];
    }
    forall x, y | 0 <= x < y < |list| ensures list[x] != list[y] {
      assert q[x] == list[x] && q[y] == list[y];
    }
  }

  /** The addresses of `count` consecutive pages. */
  function Run(pa: nat, count: nat): seq<nat> {
    seq(count, x => pa + x * PAGE_SIZE)
  }

  lemma ElemsSnoc(list: seq<nat>, n: nat)
    requires n < |list| && NoDup(list)
    ensures list[n] in list && list[n] !in Elems(list[..n])
    ensures Elems(list[..n + 1]) == Elems(list[..n]) + {list[n]}
  {
    assert list[..n + 1] == list[..n] + [list[n]];
  }

  /** One more page of `list` given back to the arenas that own `pages`. */
  lemma FreedNext(list: seq<nat>, n: nat, pages: set<nat>, free0: set<nat>)
    requires n < |list| && NoDup(list) && list[n] !in free0
    ensures free0 + Elems(list[..n + 1]) * pages
         == free0 + Elems(list[..n]) * pages + if list[n] in pages then {list[n]} else {}
    ensures list[n] !in free0 + Elems(list[..n]) * pages
    ensures Elems(list[..n + 1]) <= pages ==> Elems(list[..n]) <= pages && list[n] in pages
  {
    ElemsSnoc(list, n);
  }

  /** A run of `count` free pages starting at page `s`, its address a multiple of `align`. */
  ghost predicate RunAt(a: Arena, s: nat, count: nat, align: nat)
    requires align > 0
  {
    && s + count <= |a.nonfree|
    && Mod(a.Addr(s), align) == 0
    && forall i :: s <= i < s + count ==> !a.nonfree[i]
  }

  /** The alignment pmm_alloc_contiguous works with: at least a page. */
  function RunAlign(alignLog2: nat): (a: nat)
    ensures a > 0
  {
    Pow2(if alignLog2 < PAGE_SIZE_SHIFT then PAGE_SIZE_SHIFT else alignLog2)
  }

  /** Its multiples are the common multiples of the page size and the alignment asked for. */
  lemma RunAligned(x: nat, alignLog2: nat)
    ensures Mod(x, RunAlign(alignLog2)) == 0 <==> Mod(x, PAGE_SIZE) == 0 && Mod(x, Pow2(alignLog2)) == 0
  {
    assert Pow2(PAGE_SIZE_SHIFT) == PAGE_SIZE;
    if Mod(x, RunAlign(alignLog2)) == 0 {
      if alignLog2 < PAGE_SIZE_SHIFT {
        Pow2Multiple(x, alignLog2, PAGE_SIZE_SHIFT);
      } else {
        Pow2Multiple(x, PAGE_SIZE_SHIFT, alignLog2);
      }
    }
  }

  lemma Pow2Multiple(x: nat, a: nat, b: nat)
    requires a <= b && Mod(x, Pow2(b)) == 0
    ensures Mod(x, Pow2(a)) == 0
  {
    Pow2Add(a, b - a);
    DivMod(x, Pow2(b));
    DivMod(Pow2(a), Pow2(a));
    DivModUnique(Pow2(a), Pow2(a), 1, 0);
    ModMul(Pow2(b - a), Pow2(a), Pow2(a));
    ModMul(Div(x, Pow2(b)), Pow2(a), Pow2(b));
  }

  /** No KMAP arena has a run. */
  ghost predicate NoRun(arenas: seq<Arena>, count: nat, align: nat)
    requires align > 0
  {
    NoRunTo(arenas, |arenas|, count, align)
  }

  /** None of the first `n` does. */
  ghost predicate NoRunTo(arenas: seq<Arena>, n: nat, count: nat, align: nat)
    requires align > 0 && n <= |arenas|
  {
    forall k {:trigger NoRunIn(arenas[k], count, align)} ::
      0 <= k < n && arenas[k].kmap ==> NoRunIn(arenas[k], count, align)
  }

  /** No run starts before page `n`. */
  ghost predicate NoRunBelow(a: Arena, n: nat, count: nat, align: nat)
    requires align > 0
  {
    forall s: nat :: s < n ==> !RunAt(a, s, count, align)
  }

  ghost predicate NoRunIn(a: Arena, count: nat, align: nat)
    requires align > 0
  {
    forall s: nat :: !RunAt(a, s, count, align)
  }

  /** The run at page `s` of arena `k`, address `pa`, is the lowest of the first KMAP arena that has one. */
  ghost predicate LowestRun(arenas: seq<Arena>, k: nat, s: nat, count: nat, align: nat, pa: nat)
    requires align > 0
  {
    && k < |arenas| && arenas[k].kmap && RunAt(arenas[k], s, count, align) && pa == arenas[k].Addr(s)
    && NoRunBelow(arenas[k], s, count, align)
    && NoRunTo(arenas, k, count, align)
  }

  /** The search of arena `k` goes astray: no KMAP arena before it has a run, and it is out of reach; one with fewer
      than 2^32 pages has no run and ends the search where a page number overflows. */
  ghost predicate AstrayAt(arenas: seq<Arena>, k: nat, count: nat, align: nat)
    requires align > 0
  {
    && k < |arenas| && arenas[k].kmap && !InReach(arenas[k], count, align) && NoRunTo(arenas, k, count, align)
    && (|arenas[k].nonfree| < UINT ==> Misleads(arenas[k], count, align))
  }

  /** Arena `k` is searched if the search gets there, and leads it astray. */
  ghost predicate MisleadsAt(arenas: seq<Arena>, k: nat, count: nat, align: nat)
    requires align > 0
  {
    && k < |arenas| && arenas[k].kmap && NoRunTo(arenas, k, count, align)
    && if |arenas[k].nonfree| < UINT then Misleads(arenas[k], count, align) else WrapsAtOnce(arenas[k], count, align)
  }

  ghost predicate AllInReach(arenas: seq<Arena>, count: nat, align: nat) {
    forall k :: 0 <= k < |arenas| && arenas[k].kmap ==> InReach(arenas[k], count, align)
  }

  /** Page offsets that are multiples of `step` are byte offsets that are multiples of `step` pages. */
  lemma {:induction false} PageMultiple(x: nat, step: nat)
    requires step > 0
    ensures Mod(x, step) == 0 <==> Mod(x * PAGE_SIZE, step * PAGE_SIZE) == 0
  {
    if x >= step {
      PageMultiple(x - step, step);
    }
  }

  lemma AlignedFrom(base: nat, off: nat, s: nat, step: nat)
    requires step > 0 && off <= s
    requires Mod(base + off * PAGE_SIZE, step * PAGE_SIZE) == 0
    ensures Mod(base + s * PAGE_SIZE, step * PAGE_SIZE) == 0 <==> Mod(s - off, step) == 0
  {
    PageMultiple(s - off, step);
    ModAdd(base + off * PAGE_SIZE, (s - off) * PAGE_SIZE, step * PAGE_SIZE);
  }

  /** A multiple of a number of pages is a multiple of the page size. */
  lemma {:induction false} PageMultipleOf(x: nat, step: nat)
    requires step > 0 && Mod(x, step * PAGE_SIZE) == 0
    ensures x % PAGE_SIZE == 0
  {
    if x > 0 {
      PageMultipleOf(x - step * PAGE_SIZE, step);
    }
  }

  /** The loop condition of pmm_alloc_contiguous for an arena of `n` pages, its sum taken in 32 bits. */
  predicate RunFits(start: nat, count: nat, n: nat) {
    start < n && (start + count) % UINT <= n
  }

  /** The condition says that the run lies in the arena for every start if and only if the arena and the run together
      have no more than 2^32 pages. */
  lemma RunFitsExact(count: nat, n: nat)
    requires count < UINT && 0 < n < UINT
    ensures n + count <= UINT <==>
              forall start: nat :: start < n ==> (RunFits(start, count, n) <==> start + count <= n)
  {
    if n + count > UINT {
      var start: nat := UINT - count;
      assert RunFits(start, count, n) && start + count > n;
    }
  }

  /** The first used page of a candidate, its length, or where the arena ends before it. */
  method FirstUsed(a: Arena, start: nat, count: nat) returns (i: nat)
    requires start <= |a.nonfree|
    ensures i <= count && start + i <= |a.nonfree| && forall x :: start <= x < start + i ==> !a.nonfree[x]
    ensures i < count && start + i < |a.nonfree| ==> a.nonfree[start + i]
  {
    i := 0;
    while i < count && start + i < |a.nonfree| && !a.nonfree[start + i]
      invariant 0 <= i <= count && start + i <= |a.nonfree|
      invariant forall x :: start <= x < start + i ==> !a.nonfree[x]
    {
      i := i + 1;
    }
  }

  /** How the search of an arena ends; Astray is past the end of its pages, or at a page number that does not fit 32
      bits. */
  datatype Search = RunFound(start: nat) | NoneFound | Astray

  /** Where the search of an arena starts: the page of the first boundary, if the arena reaches it. */
  ghost function FirstStart(a: Arena, align: nat): nat
    requires align > 0
  {
    (RoundUp(a.base, align) - a.base) / PAGE_SIZE
  }

  /** A page from `y` on is in use. */
  ghost predicate UsedFrom(a: Arena, y: nat) {
    exists x :: y <= x < |a.nonfree| && a.nonfree[x]
  }

  /** The first candidate lies in the arena, its end does not fit 32 bits, and nothing breaks it. */
  ghost predicate WrapsAtOnce(a: Arena, count: nat, align: nat)
    requires align > 0
  {
    && RoundUp(a.base, align) < a.base + |a.nonfree| * PAGE_SIZE && FirstStart(a, align) + count >= UINT
    && !UsedFrom(a, FirstStart(a, align))
  }

  ghost predicate Boundary(a: Arena, s: nat, align: nat)
    requires align > 0
  {
    Mod(a.Addr(s), align) == 0
  }

  /** `s` is the first boundary past page `u`. */
  ghost predicate NextBoundary(a: Arena, u: nat, s: nat, align: nat)
    requires align > 0
  {
    u < s && Boundary(a, s, align) && forall x: nat :: u < x < s ==> !Boundary(a, x, align)
  }

  /** Page `u` breaks the candidate that starts at page `s` and fits the arena. */
  ghost predicate Breaks(a: Arena, s: nat, u: nat, count: nat, align: nat)
    requires align > 0
  {
    && Boundary(a, s, align) && s <= u < s + count <= |a.nonfree| && a.nonfree[u]
    && forall x :: s <= x < u ==> !a.nonfree[x]
  }

  /** `f` is the last candidate that fits the arena. */
  ghost predicate LastFit(a: Arena, f: nat, count: nat, align: nat)
    requires align > 0
  {
    && Boundary(a, f, align) && f + count <= |a.nonfree|
    && forall x: nat :: Boundary(a, x, align) && x + count <= |a.nonfree| ==> x <= f
  }

  /** The first start of a search without success that does not fit: the very first one, or the first boundary past the
      page that breaks the last candidate that fits.  There it should end. */
  ghost predicate StopsAt(a: Arena, s: nat, count: nat, align: nat)
    requires align > 0
  {
    if FirstStart(a, align) + count > |a.nonfree| then s == FirstStart(a, align)
    else exists f: nat, u: nat :: StopsPast(a, f, u, s, count, align)
  }

  ghost predicate StopsPast(a: Arena, f: nat, u: nat, s: nat, count: nat, align: nat)
    requires align > 0
  {
    && s + count > |a.nonfree| && LastFit(a, f, count, align)
    && Breaks(a, f, u, count, align) && NextBoundary(a, u, s, align)
  }

  /** Going on from `s`, the search passes every boundary with a page in use behind it: it leaves the arena's pages at
      the first boundary without one. */
  ghost predicate LeavesAt(a: Arena, s: nat, t: nat, align: nat)
    requires align > 0
  {
    && s <= t && Boundary(a, t, align) && !UsedFrom(a, t)
    && forall y: nat :: Boundary(a, y, align) && s <= y < t ==> UsedFrom(a, y)
  }

  /** The arena has no run, and the search of it goes on past its last page or to a page number that overflows. */
  ghost predicate Misleads(a: Arena, count: nat, align: nat)
    requires align > 0
  {
    && RoundUp(a.base, align) < a.base + |a.nonfree| * PAGE_SIZE && NoRunIn(a, count, align)
    && exists s: nat, t: nat :: StopsAt(a, s, count, align) && Overruns(a, s, t, count, align)
  }

  /** `s` is where the search should end.  It does not if the bound check overflows there; then it leaves at `t`. */
  ghost predicate Overruns(a: Arena, s: nat, t: nat, count: nat, align: nat)
    requires align > 0
  {
    if s < |a.nonfree| && s + count >= UINT then LeavesAt(a, s, t, align) && (t < |a.nonfree| || t >= UINT)
    else t == s >= UINT
  }

  /** The search came to page `start` from a candidate at `s` that page `u` breaks, or has just begun. */
  ghost predicate CameTo(a: Arena, off: nat, start: nat, count: nat, align: nat)
    requires align > 0
  {
    || start == off
    || exists s: nat, u: nat :: off <= s && Breaks(a, s, u, count, align) && NextBoundary(a, u, start, align)
  }

  lemma {:induction false} FindLastFit(a: Arena, s: nat, top: nat, count: nat, align: nat) returns (f: nat)
    requires align > 0 && Boundary(a, s, align) && s <= top && top + count <= |a.nonfree|
    requires forall x: nat :: Boundary(a, x, align) && x + count <= |a.nonfree| ==> x <= top
    ensures s <= f && LastFit(a, f, count, align)
    decreases top
  {
    if Boundary(a, top, align) {
      f := top;
    } else {
      f := FindLastFit(a, s, top - 1, count, align);
    }
  }

  /** A start that does not fit is where the search ends. */
  lemma StopHere(a: Arena, off: nat, start: nat, count: nat, align: nat)
    requires align > 0 && off == FirstStart(a, align) && CameTo(a, off, start, count, align)
    requires start + count > |a.nonfree|
    ensures StopsAt(a, start, count, align)
  {
    if start != off {
      var s: nat, u: nat :| off <= s && Breaks(a, s, u, count, align) && NextBoundary(a, u, start, align);
      var f := FindLastFit(a, s, |a.nonfree| - count, count, align);
      assert StopsPast(a, f, u, start, count, align);
    }
  }

  lemma StopsOnce(a: Arena, s: nat, s': nat, count: nat, align: nat)
    requires align > 0 && StopsAt(a, s, count, align) && StopsAt(a, s', count, align)
    ensures s == s'
  {
    if FirstStart(a, align) + count <= |a.nonfree| {
      var f: nat, u: nat :| StopsPast(a, f, u, s, count, align);
      var f': nat, u': nat :| StopsPast(a, f', u', s', count, align);
      assert f == f' && u == u';
    }
  }

  /** The jump past page `start + i` goes to the next boundary. */
  lemma JumpsNext(a: Arena, off: nat, start: nat, i: nat, step: nat, align: nat)
    requires step > 0 && align == step * PAGE_SIZE && off <= start && Boundary(a, off, align)
    ensures NextBoundary(a, start + i, RoundUp(start - off + i + 1, step) + off, align)
  {
    var next := RoundUp(start - off + i + 1, step) + off;
    AlignedFrom(a.base, off, next, step);
    forall x: nat | start + i < x < next ensures !Boundary(a, x, align) {
      AlignedFrom(a.base, off, x, step);
      if Boundary(a, x, align) {
        RoundUpLeast(start - off + i + 1, step, x - off);
      }
    }
  }

  /** The search has come to `start`; past the place `s` where it should end only because the bound check overflowed. */
  ghost predicate Reached(a: Arena, off: nat, start: nat, count: nat, align: nat)
    requires align > 0
  {
    if start + count <= |a.nonfree| then CameTo(a, off, start, count, align)
    else exists s: nat :: WentOn(a, s, start, count, align)
  }

  ghost predicate WentOn(a: Arena, s: nat, start: nat, count: nat, align: nat)
    requires align > 0
  {
    && StopsAt(a, s, count, align) && s <= start
    && (s < start ==> s < |a.nonfree| && s + count >= UINT)
    && forall y: nat :: Boundary(a, y, align) && s <= y < start ==> UsedFrom(a, y)
  }

  lemma LeavesOnce(a: Arena, s: nat, t: nat, t': nat, align: nat)
    requires align > 0 && LeavesAt(a, s, t, align) && LeavesAt(a, s, t', align)
    ensures t == t'
  {
  }

  /** How the search of an arena ends at a `start` that does not fit. */
  lemma EndsAt(a: Arena, off: nat, start: nat, count: nat, align: nat)
    requires align > 0 && off == FirstStart(a, align) && Reached(a, off, start, count, align) && 0 < count < UINT
    requires NoRunBelow(a, start, count, align) && RoundUp(a.base, align) < a.base + |a.nonfree| * PAGE_SIZE
    requires Boundary(a, start, align) && start + count > |a.nonfree|
    requires start < |a.nonfree| && start + count >= UINT ==> !UsedFrom(a, start)
    ensures NoRunIn(a, count, align)
    ensures Misleads(a, count, align) <==> start >= UINT || (start < |a.nonfree| && start + count >= UINT)
  {
    forall s: nat ensures !RunAt(a, s, count, align) {
    }
    var s: nat :| WentOn(a, s, start, count, align);
    if s < |a.nonfree| && s + count >= UINT {
      assert LeavesAt(a, s, start, align);
      if start < |a.nonfree| || start >= UINT {
        assert Overruns(a, s, start, count, align);
      }
    } else if start >= UINT {
      assert Overruns(a, s, start, count, align);
    }
    if Misleads(a, count, align) {
      var s': nat, t: nat :| StopsAt(a, s', count, align) && Overruns(a, s', t, count, align);
      StopsOnce(a, s, s', count, align);
      if s < |a.nonfree| && s + count >= UINT {
        LeavesOnce(a, s, t, start, align);
      }
    }
  }

  /** Page numbers of the search stay below 2^32. */
  predicate InReach(a: Arena, count: nat, align: nat) {
    |a.nonfree| + count <= UINT && |a.nonfree| + align / PAGE_SIZE <= UINT
  }

  /** The search of pmm_alloc_contiguous inside one arena.  It jumps past a used page to the next
      boundary, yet finds the lowest run there is. */
  method FindRun(a: Arena, count: nat, alignLog2: nat) returns (r: Search)
    requires a.Valid() && 0 < count < UINT && alignLog2 >= PAGE_SIZE_SHIFT
    ensures r.RunFound? ==> RunAt(a, r.start, count, Pow2(alignLog2)) && NoRunBelow(a, r.start, count, Pow2(alignLog2))
    ensures r.NoneFound? ==> NoRunIn(a, count, Pow2(alignLog2))
    ensures r.Astray? ==> !InReach(a, count, Pow2(alignLog2))
    ensures r.Astray? && |a.nonfree| < UINT ==> NoRunIn(a, count, Pow2(alignLog2))
    ensures WrapsAtOnce(a, count, Pow2(alignLog2)) ==> r.Astray?
    ensures |a.nonfree| < UINT ==> (r.Astray? <==> Misleads(a, count, Pow2(alignLog2)))
  {
    var align, step := Pow2(alignLog2), Pow2(alignLog2 - PAGE_SIZE_SHIFT);
    AlignPages(alignLog2);
    var rounded := RoundUp(a.base, align);
    NoRunBefore(a, count, step, align);
    if rounded > a.base + |a.nonfree| * PAGE_SIZE - 1 {
      return NoneFound;
    }
    var off := (rounded - a.base) / PAGE_SIZE;
    if off >= UINT {
      return Astray;
    }
    r := SearchFrom(a, off, count, step, align);
  }

  /** The loop of that search, from the first boundary on. */
  method SearchFrom(a: Arena, off: nat, count: nat, step: nat, align: nat) returns (r: Search)
    requires a.Valid() && 0 < count < UINT && step > 0 && align == step * PAGE_SIZE && off < UINT
    requires off == FirstStart(a, align) && Boundary(a, off, align) && NoRunBelow(a, off, count, align)
    requires RoundUp(a.base, align) < a.base + |a.nonfree| * PAGE_SIZE
    ensures r.RunFound? ==> RunAt(a, r.start, count, align) && NoRunBelow(a, r.start, count, align)
    ensures r.NoneFound? ==> NoRunIn(a, count, align)
    ensures r.Astray? ==> !InReach(a, count, align)
    ensures r.Astray? && |a.nonfree| < UINT ==> NoRunIn(a, count, align)
    ensures off + count >= UINT && !UsedFrom(a, off) ==> r.Astray?
    ensures |a.nonfree| < UINT ==> (r.Astray? <==> Misleads(a, count, align))
  {
    var start := off;
    Begin(a, off, count, align);
    while RunFits(start, count, |a.nonfree|)
      invariant off <= start < UINT && Boundary(a, start, align) && NoRunBelow(a, start, count, align)
      invariant start > off ==> UsedFrom(a, off)
      invariant Reached(a, off, start, count, align)
      decreases |a.nonfree| - start
    {
      var i := FirstUsed(a, start, count);
      if i == count {
        if start + count >= UINT {
          return Astray;
        }
        assert RunAt(a, start, count, align);
        return RunFound(start);
      }
      FitsOrWraps(start, count, |a.nonfree|);
      if start + i == |a.nonfree| {
        EndsAt(a, off, start, count, align);
        return Astray;
      }
      var next := RoundUp(start - off + i + 1, step) + off;
      Jump(a, off, start, i, next, count, step, align);
      if next >= UINT {
        if |a.nonfree| < UINT {
          EndsAt(a, off, next, count, align);
        }
        return Astray;
      }
      start := next;
    }
    FitsOrWraps(start, count, |a.nonfree|);
    EndsAt(a, off, start, count, align);
    return NoneFound;
  }

  lemma Begin(a: Arena, off: nat, count: nat, align: nat)
    requires align > 0 && off == FirstStart(a, align)
    ensures Reached(a, off, off, count, align)
  {
    if off + count > |a.nonfree| {
      assert WentOn(a, off, off, count, align);
    }
  }

  /** From a start to the boundary past the page that breaks it. */
  lemma Jump(a: Arena, off: nat, start: nat, i: nat, next: nat, count: nat, step: nat, align: nat)
    requires step > 0 && align == step * PAGE_SIZE && off == FirstStart(a, align) && off <= start && i < count
    requires start + i < |a.nonfree| && (start + count > |a.nonfree| ==> start + count >= UINT)
    requires Boundary(a, off, align) && Boundary(a, start, align) && NoRunBelow(a, start, count, align)
    requires a.nonfree[start + i] && forall x :: start <= x < start + i ==> !a.nonfree[x]
    requires next == RoundUp(start - off + i + 1, step) + off && Reached(a, off, start, count, align)
    ensures start < next && Boundary(a, next, align) && NoRunBelow(a, next, count, align)
    ensures Reached(a, off, next, count, align) && UsedFrom(a, off)
  {
    SkipTo(a, off, start, i, count, step, align);
    JumpsNext(a, off, start, i, step, align);
    if start + count <= |a.nonfree| {
      assert Breaks(a, start, start + i, count, align);
      assert CameTo(a, off, next, count, align);
      if next + count > |a.nonfree| {
        StopHere(a, off, next, count, align);
        assert WentOn(a, next, next, count, align);
      }
    } else {
      var s: nat :| WentOn(a, s, start, count, align);
      forall y: nat | Boundary(a, y, align) && s <= y < next ensures UsedFrom(a, y) {
        assert y < start || y <= start + i;
      }
      assert WentOn(a, s, next, count, align);
    }
  }

  /** Two free pages at 4096, asked for 2^32 - 1 pages on an 8192-byte boundary: the search goes past their end. */
  method AstrayExample() returns (r: Search)
    ensures r == Astray
  {
    var a := FreshArena(PAGE_SIZE, 2, true, 0);
    assert a.freeList[0] == 0 && a.freeList[1] == 1;
    assert Pow2(13) == 2 * PAGE_SIZE && RoundUp(PAGE_SIZE, 2 * PAGE_SIZE) == 2 * PAGE_SIZE;
    r := FindRun(a, UINT - 1, 13);
  }

  /** The bound check fails where the run does not fit, and passes where it does or where the sum overflows. */
  lemma FitsOrWraps(start: nat, count: nat, n: nat)
    requires start < UINT && count < UINT
    ensures RunFits(start, count, n) <==> start < n && (start + count <= n || start + count >= UINT)
  {
    if start + count >= UINT {
      assert (start + count) % UINT == start + count - UINT;
    }
  }

  /** No aligned address of the arena lies before its rounded base, which is on a page boundary. */
  lemma NoRunBefore(a: Arena, count: nat, step: nat, align: nat)
    requires a.Valid() && step > 0 && align == step * PAGE_SIZE
    ensures forall s: nat :: RunAt(a, s, count, align) ==> RoundUp(a.base, align) <= a.Addr(s)
    ensures a.base + (RoundUp(a.base, align) - a.base) / PAGE_SIZE * PAGE_SIZE == RoundUp(a.base, align)
  {
    forall s: nat | RunAt(a, s, count, align) ensures RoundUp(a.base, align) <= a.Addr(s) {
      RoundUpLeast(a.base, align, a.Addr(s));
    }
    PageMultipleOf(RoundUp(a.base, align), step);
  }

  lemma SkipTo(a: Arena, off: nat, start: nat, i: nat, count: nat, step: nat, align: nat)
    requires step > 0 && align == step * PAGE_SIZE && off <= start && i < count
    requires Mod(a.Addr(off), align) == 0
    requires start + i < |a.nonfree| && a.nonfree[start + i]
    requires forall s: nat :: s < start ==> !RunAt(a, s, count, align)
    ensures var next := RoundUp(start - off + i + 1, step) + off;
            && Mod(a.Addr(next), align) == 0
            && forall s: nat :: s < next ==> !RunAt(a, s, count, align)
  {
    var next := RoundUp(start - off + i + 1, step) + off;
    AlignedFrom(a.base, off, next, step);
    forall s: nat | s < next ensures !RunAt(a, s, count, align) {
      SkipSound(a, off, start, i, s, count, step, align);
    }
  }

  lemma AlignPages(alignLog2: nat)
    requires alignLog2 >= PAGE_SIZE_SHIFT
    ensures Pow2(alignLog2) == Pow2(alignLog2 - PAGE_SIZE_SHIFT) * PAGE_SIZE
  {
    Pow2Add(alignLog2 - PAGE_SIZE_SHIFT, PAGE_SIZE_SHIFT);
    assert Pow2(12) == 4096;
  }

  /** No run starts between a start whose `i`-th page is in use and the next boundary after that page. */
  lemma SkipSound(a: Arena, off: nat, start: nat, i: nat, s: nat, count: nat, step: nat, align: nat)
    requires step > 0 && align == step * PAGE_SIZE && off <= start && i < count
    requires Mod(a.Addr(off), align) == 0
    requires start + i < |a.nonfree| && a.nonfree[start + i]
    requires s < RoundUp(start - off + i + 1, step) + off
    requires s < start ==> !RunAt(a, s, count, align)
    ensures !RunAt(a, s, count, align)
  {
    if start + i < s && Mod(a.Addr(s), align) == 0 {
      AlignedFrom(a.base, off, s, step);
      RoundUpLeast(start - off + i + 1, step, s - off);
      assert false;
    }
  }

  lemma SameShapeAll(a: seq<Arena>, b: seq<Arena>)
    requires SameShape(a, b)
    ensures forall p: nat :: IsPage(a, p) == IsPage(b, p)
  {
    forall p: nat ensures IsPage(a, p) == IsPage(b, p) {
      SameShapePages(a, b, p);
    }
  }

  lemma FreeIsPage(arenas: seq<Arena>, a: nat)
    requires ValidArenas(arenas) && a in Elems(FreeQueue(arenas))
    ensures IsPage(arenas, a)
  {
    FreeQueueIsFree(arenas, a);
    var k: nat, i: nat :| FreeAt(arenas, a, k, i);
    assert arenas[k].Holds(a);
    SumMod(arenas[k].base, i * PAGE_SIZE, PAGE_SIZE);
    MulMod(i, PAGE_SIZE);
  }

  class Allocator {
    var arenas: seq<Arena>
    ghost var free: set<nat>   // the free pages
    ghost var pages: set<nat>  // the pages of all arenas

    /** Stated for the length of the arena list, so that only the methods here, which name it, unfold it. */
    ghost predicate Valid()
      reads this
    {
      forall n {:trigger Consistent(n)} :: n == |arenas| ==> Consistent(n)
    }

    ghost predicate Consistent(n: nat)
      reads this
    {
      && n == |arenas| && ValidArenas(arenas)
      && free == Elems(FreeQueue(arenas))
      && (forall a: nat :: a in pages <==> IsPage(arenas, a))
    }

    constructor ()
      ensures Valid() && arenas == []
    {
      arenas := [];
      free, pages := {}, {};
    }

    lemma FreeArePages()
      requires Valid()
      ensures free <= pages
    {
      assert Consistent(|arenas|);
      forall p | p in free ensures p in pages {
        FreeIsPage(arenas, p);
      }
    }

    lemma PagesAligned()
      requires Valid()
      ensures forall p :: p in pages ==> p % PAGE_SIZE == 0
    {
      assert Consistent(|arenas|);
    }

    /** pmm_add_arena: the list stays in priority order, new arenas after their equals. */
    method AddArena(base: nat, pageCount: nat, kmap: bool, priority: nat)
      requires Valid()
      requires base % PAGE_SIZE == 0 && pageCount > 0
      requires forall k :: 0 <= k < |arenas| ==> arenas[k].Apart(FreshArena(base, pageCount, kmap, priority))
      modifies this
      ensures Valid() && pages == old(pages) + Elems(Run(base, pageCount))
      ensures exists k :: InsertedAt(old(arenas), arenas, k, FreshArena(base, pageCount, kmap, priority))
    {
      assert Consistent(|arenas|);
      var k := 0;
      while k < |arenas| && arenas[k].priority <= priority
        invariant 0 <= k <= |arenas|
        invariant forall l :: 0 <= l < k ==> arenas[l].priority <= priority
      {
        k := k + 1;
      }
      var flags, list, n := [], [], 0;
      while n < pageCount
        invariant n <= pageCount
        invariant flags == seq(n, i => false) && list == seq(n, i => i)
      {
        flags, list, n := flags + [false], list + [n], n + 1;
      }
      var a := Arena(base, kmap, priority, flags, list, n);
      assert a == FreshArena(base, pageCount, kmap, priority);
      assert a.Valid() by {
        forall i | 0 <= i < |a.nonfree| ensures i in a.freeList {
          assert a.freeList[i] == i;
        }
      }
      InsertValid(arenas, k, a);
      InsertPages(arenas, k, a);
      assert InsertedAt(arenas, arenas[..k] + [a] + arenas[k..], k, a);
      arenas := arenas[..k] + [a] + arenas[k..];
      free := Elems(FreeQueue(arenas));
      pages := pages + Elems(Run(base, pageCount));
    }

    /** Unlink entry `j` of arena `k`'s free list, flag the page and count it. */
    method Remove(k: nat, j: nat) returns (p: nat)
      requires Consistent(|arenas|) && k < |arenas| && j < |arenas[k].freeList|
      modifies this
      ensures Consistent(|arenas|) && pages == old(pages) && SameShape(old(arenas), arenas)
      ensures arenas == old(arenas)[k := old(arenas)[k].Take(old(arenas)[k].freeList[j], j)]
      ensures p == old(arenas)[k].Addr(old(arenas)[k].freeList[j])
      ensures var n, q := QueuePos(old(arenas), k, j), FreeQueue(old(arenas));
              n < |q| && q[n] == p && FreeQueue(arenas) == q[..n] + q[n + 1..]
    {
      var a := arenas[k];
      var i := a.freeList[j];
      TakeQueue(arenas, k, j);
      TakeValid(a, j);
      UpdateValid(arenas, k, a.Take(i, j));
      SameShapeAll(arenas, arenas[k := a.Take(i, j)]);
      arenas := arenas[k := a.Take(i, j)];
      free := Elems(FreeQueue(arenas));
      p := a.Addr(i);
    }

    /** The inner loop of pmm_alloc_pages: pop the free list of arena `k`. */
    method TakeFrom(k: nat, count: nat) returns (list: seq<nat>)
      requires Consistent(|arenas|) && k < |arenas|
      requires forall l :: 0 <= l < k ==> arenas[l].freeList == []
      modifies this
      ensures Consistent(|arenas|) && pages == old(pages) && SameShape(old(arenas), arenas)
      ensures arenas == old(arenas)[k := arenas[k]]
      ensures FreeQueue(old(arenas)) == list + FreeQueue(arenas)
      ensures |list| == count || (|list| < count && arenas[k].freeList == [])
    {
      list := [];
      while |list| < count && arenas[k].freeCount > 0
        invariant Consistent(|arenas|) && pages == old(pages) && SameShape(old(arenas), arenas)
        invariant arenas == old(arenas)[k := arenas[k]] && |list| <= count
        invariant FreeQueue(old(arenas)) == list + FreeQueue(arenas)
        decreases arenas[k].freeCount
      {
        var p := Pop(k);
        ghost var rest := FreeQueue(arenas);
        ConcatAssoc(list, [p], rest);
        list := list + [p];
        assert FreeQueue(old(arenas)) == list + rest;
      }
    }

    /** Pop the free list of arena `k`, the first that has any. */
    method Pop(k: nat) returns (p: nat)
      requires Consistent(|arenas|) && k < |arenas| && arenas[k].freeCount > 0
      requires forall l :: 0 <= l < k ==> arenas[l].freeList == []
      modifies this
      ensures Consistent(|arenas|) && pages == old(pages) && SameShape(old(arenas), arenas)
      ensures arenas == old(arenas)[k := arenas[k]] && arenas[k].freeCount == old(arenas)[k].freeCount - 1
      ensures FreeQueue(old(arenas)) == [p] + FreeQueue(arenas)
    {
      ghost var rest := FreeQueue(arenas);
      QueuePosFirst(arenas, k);
      p := Remove(k, 0);
      DropHead(rest);
    }

    /** pmm_alloc_pages: as many pages as there are, up to `count`, off the front of the free queue. */
    method AllocPages(count: nat) returns (list: seq<nat>)
      requires Valid()
      modifies this
      ensures Valid() && pages == old(pages) && SameShape(old(arenas), arenas)
      ensures |list| == if count <= |FreeQueue(old(arenas))| then count else |FreeQueue(old(arenas))|
      ensures FreeQueue(old(arenas)) == list + FreeQueue(arenas)
      ensures NoDup(list) && free !! Elems(list) && (|list| < count ==> free == {})
      ensures old(free) == free + Elems(list)
      ensures Elems(list) <= pages && forall p :: p in list ==> p % PAGE_SIZE == 0
    {
      assert Consistent(|arenas|);
      list := [];
      var k := 0;
      while k < |arenas|
        invariant Consistent(|arenas|) && pages == old(pages) && SameShape(old(arenas), arenas)
        invariant 0 <= k <= |arenas| && |list| <= count
        invariant FreeQueue(old(arenas)) == list + FreeQueue(arenas)
        invariant |list| < count ==> forall l :: 0 <= l < k ==> arenas[l].freeList == []
      {
        if |list| < count {
          var more := TakeFrom(k, count - |list|);
          ConcatAssoc(list, more, FreeQueue(arenas));
          list := list + more;
        }
        k := k + 1;
      }
      if |list| < count {
        QueueEmpty(arenas);
      }
      FreeQueueNoDup(old(arenas));
      SplitQueue(FreeQueue(old(arenas)), list, FreeQueue(arenas));
      forall p | p in list ensures p in pages && p % PAGE_SIZE == 0 {
        FreeIsPage(old(arenas), p);
      }
    }

    /** One turn of the loop of pmm_free: find the arena the page belongs to and give it back. */
    method FreeOne(p: nat) returns (owned: bool, ghost at: nat)
      requires Consistent(|arenas|) && p % PAGE_SIZE == 0 && p !in free
      modifies this
      ensures Consistent(|arenas|) && pages == old(pages) && SameShape(old(arenas), arenas)
      ensures owned == (p in pages)
      ensures free == old(free) + if owned then {p} else {}
      ensures |FreeQueue(arenas)| == |FreeQueue(old(arenas))| + if owned then 1 else 0
      ensures if owned then PutBack(old(arenas), arenas, at, p) else arenas == old(arenas)
    {
      owned, at := false, 0;
      var k := 0;
      while k < |arenas|
        invariant unchanged(this) && 0 <= k <= |arenas|
        invariant forall l :: 0 <= l < k ==> !arenas[l].Holds(p)
      {
        var a := arenas[k];
        if a.Holds(p) {
          var i := (p - a.base) / PAGE_SIZE;
          assert a.Addr(i) == p;
          FreeQueueIsFree(arenas, p);
          assert FreeAt(arenas, p, k, i) == !a.nonfree[i];
          GiveValid(a, i);
          GiveQueue(arenas, k, i);
          UpdateValid(arenas, k, a.Give(i));
          SameShapeAll(arenas, arenas[k := a.Give(i)]);
          arenas := arenas[k := a.Give(i)];
          free := Elems(FreeQueue(arenas));
          return true, k;
        }
        k := k + 1;
      }
    }

    /** pmm_free: every listed page that belongs to an arena is free again, and is counted. */
    method Free(list: seq<nat>) returns (count: nat)
      requires Valid() && NoDup(list)
      requires forall p :: p in list ==> p % PAGE_SIZE == 0 && p !in free
      modifies this
      ensures Valid() && pages == old(pages) && SameShape(old(arenas), arenas)
      ensures free == old(free) + Elems(list) * pages
      ensures |FreeQueue(arenas)| == |FreeQueue(old(arenas))| + count
      ensures Elems(list) <= pages ==> count == |list|
    {
      assert Consistent(|arenas|);
      count := 0;
      var n := 0;
      while n < |list|
        invariant 0 <= n <= |list| && Consistent(|arenas|) && pages == old(pages) && SameShape(old(arenas), arenas)
        invariant free == old(free) + Elems(list[..n]) * pages
        invariant |FreeQueue(arenas)| == |FreeQueue(old(arenas))| + count
        invariant Elems(list[..n]) <= pages ==> count == n
      {
        assert list[n] in list;
        ghost var freed := old(free) + Elems(list[..n + 1]) * pages;
        FreedNext(list, n, pages, old(free));
        var owned, at := FreeOne(list[n]);
        assert free == freed;
        if owned {
          count := count + 1;
        }
        n := n + 1;
      }
      assert list[..n] == list;
    }

    /** The loop that takes the pages of a run out of the free list. */
    method TakeRun(k: nat, start: nat, count: nat) returns (list: seq<nat>)
      requires Consistent(|arenas|) && k < |arenas| && start + count <= |arenas[k].nonfree|
      requires forall i :: start <= i < start + count ==> !arenas[k].nonfree[i]
      modifies this
      ensures Consistent(|arenas|) && pages == old(pages) && SameShape(old(arenas), arenas)
      ensures list == Run(old(arenas)[k].Addr(start), count)
      ensures free == old(free) - Elems(list)
      ensures Elems(list) <= old(free)
    {
      list := [];
      var n := 0;
      while n < count
        invariant 0 <= n <= count && Consistent(|arenas|) && pages == old(pages) && SameShape(old(arenas), arenas)
        invariant forall i :: start + n <= i < start + count ==> !arenas[k].nonfree[i]
        invariant list == Run(old(arenas)[k].Addr(start), n)
        invariant free == old(free) - Elems(list) && Elems(list) <= old(free)
      {
        var p := TakePage(k, start + n);
        list := list + [p];
        n := n + 1;
      }
    }

    /** Take page `i` of arena `k`, wherever its node is on the free list. */
    method TakePage(k: nat, i: nat) returns (p: nat)
      requires Consistent(|arenas|) && k < |arenas| && i < |arenas[k].nonfree| && !arenas[k].nonfree[i]
      modifies this
      ensures Consistent(|arenas|) && pages == old(pages) && SameShape(old(arenas), arenas)
      ensures arenas == old(arenas)[k := arenas[k]]
      ensures arenas[k].nonfree == old(arenas)[k].nonfree[i := true]
      ensures p == old(arenas)[k].Addr(i) && p in old(free)
      ensures free == old(free) - {p}
    {
      var x :| 0 <= x < |arenas[k].freeList| && arenas[k].freeList[x] == i;
      FreeQueueNoDup(arenas);
      p := Remove(k, x);
      RemoveOne(FreeQueue(old(arenas)), QueuePos(old(arenas), k, x));
    }

    /** pmm_alloc_contiguous: the lowest aligned run in the first KMAP arena that has one.  The search goes astray only
        in an arena that is out of its 32-bit reach. */
    method AllocContiguous(count: nat, alignLog2: nat) returns (n: nat, pa: nat, list: seq<nat>, astray: bool)
      requires Valid() && count < UINT
      modifies this
      ensures Valid() && pages == old(pages) && SameShape(old(arenas), arenas)
      ensures n == 0 || (n == count && list == Run(pa, count) && !astray)
      ensures n == 0 ==> arenas == old(arenas) && list == []
      ensures !astray ==> (n == 0 <==> count == 0 || NoRun(old(arenas), count, RunAlign(alignLog2)))
      ensures n > 0 ==> exists k, s: nat :: LowestRun(old(arenas), k, s, count, RunAlign(alignLog2), pa)
      ensures n > 0 ==> Mod(pa, PAGE_SIZE) == 0 && Mod(pa, Pow2(alignLog2)) == 0
      ensures astray ==> count > 0 && exists k: nat :: AstrayAt(old(arenas), k, count, RunAlign(alignLog2))
      ensures count > 0 && (exists k: nat :: MisleadsAt(old(arenas), k, count, RunAlign(alignLog2))) ==> astray
      ensures free == old(free) - Elems(list) && Elems(list) <= old(free)
    {
      assert Consistent(|arenas|);
      n, pa, list, astray := 0, 0, [], false;
      if count == 0 {
        return;
      }
      var k, r := SearchArenas(count, if alignLog2 < PAGE_SIZE_SHIFT then PAGE_SIZE_SHIFT else alignLog2);
      match r {
        case RunFound(start) =>
          pa := arenas[k].Addr(start);
          RunAligned(pa, alignLog2);
          list := TakeRun(k, start, count);
          n := count;
        case Astray =>
          astray := true;
          assert AstrayAt(old(arenas), k, count, RunAlign(alignLog2));
        case NoneFound =>
      }
    }

    /** The loop of pmm_alloc_contiguous over the arenas: the first one whose search does not come up empty. */
    method SearchArenas(count: nat, alignLog2: nat) returns (k: nat, r: Search)
      requires Consistent(|arenas|) && 0 < count < UINT && alignLog2 >= PAGE_SIZE_SHIFT
      ensures if r.NoneFound? then NoRun(arenas, count, Pow2(alignLog2))
              else r.RunFound? ==> !NoRun(arenas, count, Pow2(alignLog2))
      ensures r.RunFound? ==> && k < |arenas|
                              && LowestRun(arenas, k, r.start, count, Pow2(alignLog2), arenas[k].Addr(r.start))
      ensures r.Astray? ==> AstrayAt(arenas, k, count, Pow2(alignLog2))
      ensures (exists j: nat :: MisleadsAt(arenas, j, count, Pow2(alignLog2))) ==> r.Astray?
    {
      k := 0;
      while k < |arenas|
        invariant 0 <= k <= |arenas| && NoRunTo(arenas, k, count, Pow2(alignLog2))
        invariant forall j: nat :: j < k ==> !MisleadsAt(arenas, j, count, Pow2(alignLog2))
      {
        if arenas[k].kmap {
          r := FindRun(arenas[k], count, alignLog2);
          if !r.NoneFound? {
            assert r.RunFound? ==> !NoRunIn(arenas[k], count, Pow2(alignLog2));
            return;
          }
        }
        k := k + 1;
      }
      return k, NoneFound;
    }

    /** pmm_alloc_page */
    method AllocPage() returns (p: Option<nat>)
      requires Valid()
      modifies this
      ensures Valid() && pages == old(pages)
      ensures p.None? ==> free == old(free) == {}
      ensures p.Some? ==> && p.value in old(free) && p.value in pages
                          && free == old(free) - {p.value}
    {
      assert Consistent(|arenas|);
      ghost var q := FreeQueue(arenas);
      var list := AllocPages(1);
      if list == [] {
        return None;
      }
      assert list[0] in Elems(list) && Elems(list) == {list[0]};
      FreeIsPage(old(arenas), list[0]);
      return Some(list[0]);
    }

    /** pmm_free_page */
    method FreePage(p: nat)
      requires Valid() && p in pages && p !in free
      modifies this
      ensures Valid() && pages == old(pages)
      ensures free == old(free) + {p}
    {
      assert Consistent(|arenas|);
      assert IsPage(arenas, p) && p % PAGE_SIZE == 0 && Elems([p]) == {p};
      var n := Free([p]);
    }
  }
}
