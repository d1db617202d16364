/** Virtual memory allocation (kernel/vm/vmm.c): regions, page tables and physical pages together. */
module Vmm {
  import opened Arith
  import opened Regions
  import opened MmuTree
  import opened Mmu
  import opened MmuTidy
  import opened MmuCount
  import opened MmuNeat
  import opened MmuPages
  import opened Pmm

  /** Walks differ at most inside `[v, v + size)`. */
  ghost predicate OnlyInside(g: Geometry, m: Memory, m': Memory, v: nat, size: nat)
    requires g.Valid()
  {
    forall rel: nat :: !(v <= rel < v + size)
                       ==> Walk(g, m', g.root, g.Top(), rel) == Walk(g, m, g.root, g.Top(), rel)
  }

  /** No leaf has an address in `[v, v + size)`. */
  ghost predicate NoneMeets(g: Geometry, m: Memory, v: nat, size: nat)
    requires g.Valid()
  {
    forall rel: nat :: Walk(g, m, g.root, g.Top(), rel).Hit?
                       ==> !Meets(Walk(g, m, g.root, g.Top(), rel), rel, v, size)
  }

  /** The first `n` pages of `list` are mapped in order from `v` on, where nothing was mapped. */
  ghost predicate PagesMapped(g: Geometry, m: Memory, m': Memory, v: nat, list: seq<nat>, n: nat, attrs: nat)
    requires g.Valid() && n <= |list|
  {
    forall rel: nat {:trigger PageState(g, m, m', v, list, n, attrs, rel)} ::
      PageState(g, m, m', v, list, n, attrs, rel)
  }

  ghost predicate PageState(g: Geometry, m: Memory, m': Memory, v: nat, list: seq<nat>, n: nat, attrs: nat, rel: nat)
    requires g.Valid() && n <= |list|
  {
    if v <= rel < v + n * PAGE_SIZE
    then Walk(g, m, g.root, g.Top(), rel) == Fault
         && PageMapped(Walk(g, m', g.root, g.Top(), rel), rel, v, list, n, attrs)
    else Walk(g, m', g.root, g.Top(), rel) == Walk(g, m, g.root, g.Top(), rel)
  }

  /** `rel` goes to its place in page `(rel - v) / PAGE_SIZE` of the list, by a leaf inside the mapped part. */
  ghost predicate PageMapped(x: Xlat, rel: nat, v: nat, list: seq<nat>, n: nat, attrs: nat) {
    && x.Hit? && x.attrs == attrs && v <= rel && (rel - v) / PAGE_SIZE < |list|
    && x.pa + x.off == list[(rel - v) / PAGE_SIZE] + (rel - v) % PAGE_SIZE
    && v + x.off <= rel && rel + x.size <= v + n * PAGE_SIZE + x.off
  }

  lemma PagesMappedNext(g: Geometry, m0: Memory, m: Memory, m': Memory, v: nat, at: nat, list: seq<nat>, n: nat,
                        attrs: nat)
    requires g.Valid() && n < |list| && at == v + n * PAGE_SIZE
    requires PagesMapped(g, m0, m, v, list, n, attrs)
    requires Maps(g, m, m', g.root, g.Top(), at, list[n], PAGE_SIZE, attrs)
    ensures PagesMapped(g, m0, m', v, list, n + 1, attrs)
  {
    var n1 := n + 1;
    forall rel: nat ensures PageState(g, m0, m', v, list, n1, attrs, rel) {
      assert PageState(g, m0, m, v, list, n, attrs, rel);
      if at <= rel < at + PAGE_SIZE {
        assert Mapped(Walk(g, m', g.root, g.Top(), rel), rel, at, list[n], PAGE_SIZE, attrs);
        assert (rel - v) / PAGE_SIZE == n && (rel - v) % PAGE_SIZE == rel - v - n * PAGE_SIZE;
      }
    }
  }

  /** Unmapping an interval that was empty before, after mapping only inside it, restores every walk. */
  lemma RegionCleared(g: Geometry, m0: Memory, m: Memory, m': Memory, v: nat, size: nat)
    requires g.Valid()
    requires NoneMeets(g, m0, v, size) && OnlyInside(g, m0, m, v, size)
    requires Unmaps(g, m, m', g.root, g.Top(), v, size)
    ensures SameWalk(g, m0, m', g.root, g.Top())
  {
    forall rel: nat ensures Walk(g, m', g.root, g.Top(), rel) == Walk(g, m0, g.root, g.Top(), rel) {
      WalkInBlock(g, m0, g.root, g.Top(), rel);
      WalkInBlock(g, m, g.root, g.Top(), rel);
      assert Walk(g, m', g.root, g.Top(), rel) == Cleared(Walk(g, m, g.root, g.Top(), rel), rel, v, size);
    }
  }

  /** The leaf at `rel` lies in region `r`, for tables that start at virtual address `base`. */
  ghost predicate LeafIn(x: Xlat, rel: nat, r: Region, base: nat) {
    x.Hit? && r.base + x.off <= base + rel && base + rel + x.size <= r.End() + x.off
  }

  ghost predicate LeafCovered(x: Xlat, rel: nat, rs: seq<Region>, base: nat) {
    exists k :: 0 <= k < |rs| && LeafIn(x, rel, rs[k], base)
  }

  /** Every mapping lies inside one region. */
  ghost predicate Covered(g: Geometry, m: Memory, rs: seq<Region>, base: nat)
    requires g.Valid()
  {
    forall rel: nat {:trigger CoveredAt(g, m, rs, base, rel)} :: CoveredAt(g, m, rs, base, rel)
  }

  ghost predicate CoveredAt(g: Geometry, m: Memory, rs: seq<Region>, base: nat, rel: nat)
    requires g.Valid()
  {
    Walk(g, m, g.root, g.Top(), rel).Hit? ==> LeafCovered(Walk(g, m, g.root, g.Top(), rel), rel, rs, base)
  }

  /** Nothing is mapped where no region is. */
  lemma CoveredClear(g: Geometry, m: Memory, rs: seq<Region>, base: nat, vaddr: nat, size: nat)
    requires g.Valid() && Covered(g, m, rs, base) && Clear(rs, vaddr, size) && base <= vaddr
    ensures NoneMeets(g, m, vaddr - base, size)
  {
    forall rel: nat | Walk(g, m, g.root, g.Top(), rel).Hit?
      ensures !Meets(Walk(g, m, g.root, g.Top(), rel), rel, vaddr - base, size)
    {
      var x := Walk(g, m, g.root, g.Top(), rel);
      assert CoveredAt(g, m, rs, base, rel);
      var k :| 0 <= k < |rs| && LeafIn(x, rel, rs[k], base);
      assert rs[k].Apart(vaddr, size);
      WalkInBlock(g, m, g.root, g.Top(), rel);
    }
  }

  /** While the first `n` pages are being mapped into a free range, the next page of it is still free. */
  lemma NextPageFree(g: Geometry, m0: Memory, m: Memory, v: nat, list: seq<nat>, n: nat, attrs: nat)
    requires g.Valid() && n < |list| && NoneMeets(g, m0, v, |list| * PAGE_SIZE)
    requires PagesMapped(g, m0, m, v, list, n, attrs)
    ensures !HitIn(g, m, g.root, g.Top(), v + n * PAGE_SIZE, PAGE_SIZE)
  {
    forall rel: nat | v + n * PAGE_SIZE <= rel < v + n * PAGE_SIZE + PAGE_SIZE
      ensures !Walk(g, m, g.root, g.Top(), rel).Hit?
    {
      WalkInBlock(g, m0, g.root, g.Top(), rel);
      assert PageState(g, m0, m, v, list, n, attrs, rel);
      assert v <= rel < v + |list| * PAGE_SIZE;
    }
  }

  lemma NextPageAligned(vaddr: nat, n: nat)
    ensures Mod(vaddr, PAGE_SIZE) == 0 <==> Mod(vaddr + n * PAGE_SIZE, PAGE_SIZE) == 0
  {
    ModMul(n, PAGE_SIZE, PAGE_SIZE);
    ModAdd(n * PAGE_SIZE, vaddr, PAGE_SIZE);
  }

  /** Fewer pages are free than places for tables on `count` pages at `v` have none; `live` is where there are
      tables. */
  ghost predicate TooFewTables(g: Geometry, live: set<seq<nat>>, free: int, v: nat, count: nat)
    requires g.Valid()
  {
    free < Card(Places(g, v, count) - live)
  }

  /** Of the tables that the first `n` pages at `v` need, all are there, and those that were not took a free page
      each. */
  ghost predicate TablesMade(g: Geometry, live0: set<seq<nat>>, free0: nat, live: set<seq<nat>>, free: nat, v: nat,
                             n: nat)
    requires g.Valid()
  {
    live == live0 + Places(g, v, n) && free + Card(Places(g, v, n) - live0) == free0
  }

  lemma TablesMadeNext(g: Geometry, m: Memory, path: Paths, up: Parents, m': Memory, path': Paths, up': Parents,
                       live0: set<seq<nat>>, free0: nat, free: nat, free': nat, v: nat, at: nat, n: nat, pa: nat,
                       attrs: nat)
    requires g.Valid() && Tree(g, m, path, up) && Tree(g, m', path', up') && g.block[0] == PAGE_SIZE
    requires Mod(v, PAGE_SIZE) == 0
    requires TablesMade(g, live0, free0, path.Values, free, v, n) && at == v + n * PAGE_SIZE
    requires Extends(m, m') && Grows(g, m, path, m', path', [], g.Top(), at, PAGE_SIZE)
    requires Maps(g, m, m', g.root, g.Top(), at, pa, PAGE_SIZE, attrs)
    requires free' + Lack(g, m, g.root, g.Top(), at, pa, PAGE_SIZE) == free
    ensures TablesMade(g, live0, free0, path'.Values, free', v, n + 1)
  {
    NextPageAligned(v, n);
    LackPage(g, m, path, up, g.root, g.Top(), at, pa);
    assert Mapped(Walk(g, m', g.root, g.Top(), at), at, at, pa, PAGE_SIZE, attrs);
    PageLive(g, m, path, up, m', path', up', at);
    PlacesNext(g, v, n, live0);
  }

  lemma MappedSame(g: Geometry, m0: Memory, m: Memory, m': Memory, v: nat, list: seq<nat>, n: nat, attrs: nat)
    requires g.Valid() && n <= |list| && PagesMapped(g, m0, m, v, list, n, attrs) && SameWalk(g, m, m', g.root, g.Top())
    ensures PagesMapped(g, m0, m', v, list, n, attrs)
  {
    forall rel: nat ensures PageState(g, m0, m', v, list, n, attrs, rel) {
      assert PageState(g, m0, m, v, list, n, attrs, rel);
    }
  }

  /** Only a lack of table pages stops the mapping of a vacant range. */
  lemma Stopped(g: Geometry, m0: Memory, m: Memory, path: Paths, up: Parents, live0: set<seq<nat>>, free0: nat,
                free: nat, v: nat, at: nat, list: seq<nat>, n: nat, attrs: nat)
    requires g.Valid() && Tree(g, m, path, up) && g.block[0] == PAGE_SIZE && Mod(v, PAGE_SIZE) == 0
    requires n < |list| && NoneMeets(g, m0, v, |list| * PAGE_SIZE) && PagesMapped(g, m0, m, v, list, n, attrs)
    requires TablesMade(g, live0, free0, path.Values, free, v, n) && at == v + n * PAGE_SIZE
    requires Blocked(g, m, free, g.root, g.Top(), at, list[n], PAGE_SIZE)
    ensures TooFewTables(g, live0, free0, v, |list|)
  {
    assert free < Card(Trail(g, [], g.Top(), at) - path.Values) by {
      NextPageFree(g, m0, m, v, list, n, attrs);
      NextPageAligned(v, n);
      LackPage(g, m, path, up, g.root, g.Top(), at, list[n]);
      PageNotInWay(g, m, path, up, g.root, g.Top(), at, list[n]);
    }
    PlacesNext(g, v, n, live0);
    PlacesMono(g, v, n + 1, |list|, live0);
  }

  /** Nothing is hit in a range that no leaf meets. */
  lemma NoneHit(g: Geometry, m: Memory, v: nat, size: nat)
    requires g.Valid() && NoneMeets(g, m, v, size)
    ensures !HitIn(g, m, g.root, g.Top(), v, size)
  {
    forall rel: nat | v <= rel < v + size ensures !Walk(g, m, g.root, g.Top(), rel).Hit? {
      WalkInBlock(g, m, g.root, g.Top(), rel);
    }
  }

  /** One mapping of a run maps its pages in order. */
  lemma RunMapped(g: Geometry, m: Memory, m': Memory, v: nat, pa: nat, list: seq<nat>, attrs: nat)
    requires g.Valid() && list == Run(pa, |list|) && Maps(g, m, m', g.root, g.Top(), v, pa, |list| * PAGE_SIZE, attrs)
    ensures PagesMapped(g, m, m', v, list, |list|, attrs)
  {
    var n := |list|;
    forall rel: nat ensures PageState(g, m, m', v, list, n, attrs, rel) {
      if v <= rel < v + n * PAGE_SIZE {
        assert Mapped(Walk(g, m', g.root, g.Top(), rel), rel, v, pa, n * PAGE_SIZE, attrs);
        assert (rel - v) / PAGE_SIZE < n && list[(rel - v) / PAGE_SIZE] == pa + (rel - v) / PAGE_SIZE * PAGE_SIZE;
      }
    }
  }

  /** What was mapped still is, and the list is. */
  lemma StillHit(g: Geometry, m: Memory, m': Memory, v: nat, list: seq<nat>, attrs: nat)
    requires g.Valid() && PagesMapped(g, m, m', v, list, |list|, attrs)
    ensures forall rel: nat :: Walk(g, m, g.root, g.Top(), rel).Hit? || v <= rel < v + |list| * PAGE_SIZE
                               ==> Walk(g, m', g.root, g.Top(), rel).Hit?
  {
    forall rel: nat | Walk(g, m, g.root, g.Top(), rel).Hit? || v <= rel < v + |list| * PAGE_SIZE
      ensures Walk(g, m', g.root, g.Top(), rel).Hit?
    {
      assert PageState(g, m, m', v, list, |list|, attrs, rel);
    }
  }

  lemma NoneMapped(g: Geometry, m: Memory, m': Memory, v: nat, list: seq<nat>, attrs: nat)
    requires g.Valid() && SameWalk(g, m, m', g.root, g.Top())
    ensures PagesMapped(g, m, m', v, list, 0, attrs)
  {
    forall rel: nat ensures PageState(g, m, m', v, list, 0, attrs, rel) {
    }
  }

  lemma RunNoDup(pa: nat, count: nat)
    ensures NoDup(Run(pa, count)) && |Run(pa, count)| == count
  {
  }

  lemma CoveredInsert(g: Geometry, m: Memory, m': Memory, rs: seq<Region>, base: nat, k: nat, r: Region,
                      list: seq<nat>, attrs: nat)
    requires g.Valid() && Covered(g, m, rs, base) && k <= |rs| && base <= r.base && r.size == |list| * PAGE_SIZE
    requires PagesMapped(g, m, m', r.base - base, list, |list|, attrs)
    ensures Covered(g, m', Insert(rs, k, r), base)
  {
    var b := Insert(rs, k, r);
    forall rel: nat ensures CoveredAt(g, m', b, base, rel) {
      var x := Walk(g, m', g.root, g.Top(), rel);
      var v := r.base - base;
      assert PageState(g, m, m', v, list, |list|, attrs, rel);
      if v <= rel < v + |list| * PAGE_SIZE {
        assert PageMapped(x, rel, v, list, |list|, attrs);
        assert LeafIn(x, rel, b[k], base);
      } else if x.Hit? {
        assert x == Walk(g, m, g.root, g.Top(), rel);
        assert CoveredAt(g, m, rs, base, rel);
        var l :| 0 <= l < |rs| && LeafIn(x, rel, rs[l], base);
        assert LeafIn(x, rel, b[if l < k then l else l + 1], base);
      }
    }
  }

  lemma CoveredDelete(g: Geometry, m: Memory, m': Memory, rs: seq<Region>, base: nat, k: nat)
    requires g.Valid() && Covered(g, m, rs, base) && k < |rs| && base <= rs[k].base && rs[k].size > 0
    requires Unmaps(g, m, m', g.root, g.Top(), rs[k].base - base, rs[k].size)
    ensures Covered(g, m', Delete(rs, k), base)
  {
    var b := Delete(rs, k);
    forall rel: nat ensures CoveredAt(g, m', b, base, rel) {
      var x := Walk(g, m, g.root, g.Top(), rel);
      assert Walk(g, m', g.root, g.Top(), rel) == Cleared(x, rel, rs[k].base - base, rs[k].size);
      if Walk(g, m', g.root, g.Top(), rel).Hit? {
        assert CoveredAt(g, m, rs, base, rel);
        var l :| 0 <= l < |rs| && LeafIn(x, rel, rs[l], base);
        WalkInBlock(g, m, g.root, g.Top(), rel);
        assert l != k;
        assert LeafIn(x, rel, b[if l < k then l else l - 1], base);
      }
    }
  }

  /** No mapping crosses the edge of a region. */
  lemma CoveredNoStraddle(g: Geometry, m: Memory, rs: seq<Region>, lo: nat, asize: nat, base: nat, k: nat)
    requires g.Valid() && Covered(g, m, rs, base) && Listed(rs, lo, asize) && k < |rs| && base <= rs[k].base
    ensures NoStraddle(g, m, g.root, g.Top(), rs[k].base - base, rs[k].size)
  {
    var v, size := rs[k].base - base, rs[k].size;
    forall rel: nat | !(v <= rel < v + size) && Walk(g, m, g.root, g.Top(), rel).Hit?
      ensures !Meets(Walk(g, m, g.root, g.Top(), rel), rel, v, size)
    {
      var x := Walk(g, m, g.root, g.Top(), rel);
      assert CoveredAt(g, m, rs, base, rel);
      var l :| 0 <= l < |rs| && LeafIn(x, rel, rs[l], base);
      WalkInBlock(g, m, g.root, g.Top(), rel);
      assert l < k ==> rs[l].End() <= rs[k].base;
      assert k < l ==> rs[k].End() <= rs[l].base;
    }
  }

  /** Removing exactly what was mapped restores every walk. */
  lemma RemovedRestores(g: Geometry, m0: Memory, m: Memory, m': Memory, v: nat, list: seq<nat>, attrs: nat)
    requires g.Valid() && PagesMapped(g, m0, m, v, list, |list|, attrs)
    requires RemovesExactly(g, m, m', g.root, g.Top(), v, |list| * PAGE_SIZE)
    ensures SameWalk(g, m0, m', g.root, g.Top())
  {
    forall rel: nat ensures Walk(g, m', g.root, g.Top(), rel) == Walk(g, m0, g.root, g.Top(), rel) {
      assert PageState(g, m0, m, v, list, |list|, attrs, rel);
    }
  }

  /** Pages on page lists: each on one list, once, and all of them in `held`. */
  ghost predicate PagesHeld(rs: seq<Region>, held: set<nat>) {
    && (forall k {:trigger HeldBy(rs, k, held)} :: 0 <= k < |rs| ==> HeldBy(rs, k, held))
    && (forall k, l {:trigger Unshared(rs, k, l)} :: 0 <= k < l < |rs| ==> Unshared(rs, k, l))
  }

  ghost predicate HeldBy(rs: seq<Region>, k: nat, held: set<nat>)
    requires k < |rs|
  {
    NoDup(rs[k].pages) && Elems(rs[k].pages) <= held
  }

  ghost predicate Unshared(rs: seq<Region>, k: nat, l: nat)
    requires k < |rs| && l < |rs|
  {
    Elems(rs[k].pages) !! Elems(rs[l].pages)
  }

  lemma HeldInsert(rs: seq<Region>, held: set<nat>, k: nat, r: Region)
    requires PagesHeld(rs, held) && k <= |rs| && NoDup(r.pages) && Elems(r.pages) !! held
    ensures PagesHeld(Insert(rs, k, r), held + Elems(r.pages))
  {
    var b := Insert(rs, k, r);
    forall i | 0 <= i < |b| ensures HeldBy(b, i, held + Elems(r.pages)) {
      if i != k {
        assert HeldBy(rs, if i < k then i else i - 1, held);
      }
    }
    forall i, j | 0 <= i < j < |b| ensures Unshared(b, i, j) {
      var i', j' := if i < k then i else i - 1, if j < k then j else j - 1;
      if i == k {
        assert HeldBy(rs, j', held);
      } else if j == k {
        assert HeldBy(rs, i', held);
      } else {
        assert Unshared(rs, i', j');
      }
    }
  }

  lemma HeldWider(rs: seq<Region>, held: set<nat>, held': set<nat>)
    requires PagesHeld(rs, held) && held <= held'
    ensures PagesHeld(rs, held')
  {
    forall k | 0 <= k < |rs| ensures HeldBy(rs, k, held') {
      assert HeldBy(rs, k, held);
    }
  }

  lemma HeldDelete(rs: seq<Region>, held: set<nat>, k: nat)
    requires PagesHeld(rs, held) && k < |rs|
    ensures HeldBy(rs, k, held)
    ensures PagesHeld(Delete(rs, k), held - Elems(rs[k].pages))
  {
    var b := Delete(rs, k);
    forall i | 0 <= i < |b| ensures HeldBy(b, i, held - Elems(rs[k].pages)) {
      var l := if i < k then i else i + 1;
      assert HeldBy(rs, l, held) && (l < k ==> Unshared(rs, l, k)) && (k < l ==> Unshared(rs, k, l));
    }
    forall i, j | 0 <= i < j < |b| ensures Unshared(b, i, j) {
      assert Unshared(rs, if i < k then i else i + 1, if j < k then j else j + 1);
    }
  }

  /** Every region starts and ends on a page boundary. */
  ghost predicate OnPages(rs: seq<Region>) {
    forall k {:trigger RegionOnPages(rs, k)} :: 0 <= k < |rs| ==> RegionOnPages(rs, k)
  }

  ghost predicate RegionOnPages(rs: seq<Region>, k: nat)
    requires k < |rs|
  {
    Mod(rs[k].base, PAGE_SIZE) == 0 && rs[k].size % PAGE_SIZE == 0
  }

  lemma OnPagesInsert(rs: seq<Region>, k: nat, r: Region)
    requires OnPages(rs) && k <= |rs| && Mod(r.base, PAGE_SIZE) == 0 && r.size % PAGE_SIZE == 0
    ensures OnPages(Insert(rs, k, r))
  {
    var b := Insert(rs, k, r);
    forall i | 0 <= i < |b| ensures RegionOnPages(b, i) {
      if i != k {
        assert RegionOnPages(rs, if i < k then i else i - 1);
      }
    }
  }

  lemma OnPagesDelete(rs: seq<Region>, k: nat)
    requires OnPages(rs) && k < |rs|
    ensures RegionOnPages(rs, k) && OnPages(Delete(rs, k))
  {
    var b := Delete(rs, k);
    forall i | 0 <= i < |b| ensures RegionOnPages(b, i) {
      assert RegionOnPages(rs, if i < k then i else i + 1);
    }
  }

  ghost predicate RemovedAt(rs: seq<Region>, rs': seq<Region>, k: nat, vaddr: nat, r: Region)
    requires k < |rs|
  {
    rs[k] == r && r.Has(vaddr) && rs' == Delete(rs, k)
  }

  /** The region that holds the base of the region just inserted is that region. */
  lemma RemovesInserted(rs: seq<Region>, rs1: seq<Region>, rs': seq<Region>, lo: nat, asize: nat, k: nat, b: nat,
                        j: nat, r: Region)
    requires k <= |rs| && k < |rs1| && rs1 == Insert(rs, k, rs1[k]) && Listed(rs1, lo, asize) && rs1[k].base == b
    requires j < |rs1| && RemovedAt(rs1, rs', j, b, r)
    ensures rs' == rs && r == rs1[k]
  {
    assert j == k;
    DeleteInsert(rs, k, rs1[k]);
  }

  lemma OnlyHolder(rs: seq<Region>, lo: nat, asize: nat, k: nat, b: nat)
    requires Listed(rs, lo, asize) && k < |rs| && rs[k].base == b
    ensures forall i :: 0 <= i < |rs| && rs[i].Has(b) <==> i == k
  {
  }

  lemma MappedInside(g: Geometry, m: Memory, m': Memory, v: nat, list: seq<nat>, n: nat, attrs: nat, size: nat)
    requires g.Valid() && n <= |list| && n * PAGE_SIZE <= size && PagesMapped(g, m, m', v, list, n, attrs)
    ensures OnlyInside(g, m, m', v, size)
  {
    forall rel: nat | !(v <= rel < v + size)
      ensures Walk(g, m', g.root, g.Top(), rel) == Walk(g, m, g.root, g.Top(), rel)
    {
      assert PageState(g, m, m', v, list, n, attrs, rel);
    }
  }

  lemma SplitList(list: seq<nat>, n: nat, done: seq<nat>, rest: seq<nat>)
    requires NoDup(list) && n < |list| && done == list[..n] && rest == list[n + 1..] + [list[n]]
    ensures NoDup(done) && NoDup(rest) && Elems(done) !! Elems(rest) && Elems(done) + Elems(rest) == Elems(list)
  {
    assert forall p :: p in list <==> p in done || p in rest by {
      assert list == done + [list[n]] + list[n + 1..];
    }
    forall i, j | 0 <= i < j < |rest| ensures rest[i] != rest[j] {
      assert rest[i] == list[n + 1 + i];
    }
  }

  ghost predicate Allocated(rs: seq<Region>, rs': seq<Region>, k: nat, addr: nat, list: seq<nat>)
    requires k <= |rs|
  {
    rs' == Insert(rs, k, Region(addr, |list| * PAGE_SIZE, list)) && Clear(rs, addr, |list| * PAGE_SIZE)
  }

  lemma RoundUpPages(bytes: nat)
    ensures RoundUp(bytes, PAGE_SIZE) % PAGE_SIZE == 0
    ensures Wrap(RoundUp(bytes, PAGE_SIZE)) % PAGE_SIZE == 0
    ensures bytes < WORD ==>
              Wrap(RoundUp(bytes, PAGE_SIZE)) == 0 || Wrap(RoundUp(bytes, PAGE_SIZE)) == RoundUp(bytes, PAGE_SIZE)
  {
    DivMod(RoundUp(bytes, PAGE_SIZE), PAGE_SIZE);
    WordMultiple(PAGE_SIZE_SHIFT);
    assert Pow2(12) == 4096;
    if bytes < WORD {
      RoundUpLeast(bytes, PAGE_SIZE, WORD);
    }
  }

  lemma TakenPages(free: set<nat>, free0: set<nat>, tables: set<nat>, list: seq<nat>)
    requires free0 == free + Elems(list) && free !! Elems(list) && tables !! free0
    ensures tables + free == (tables + free0) - Elems(list) && Elems(list) !! (tables + free)
  {
  }

  lemma TakenCount(free: set<nat>, free0: set<nat>, list: seq<nat>)
    requires free0 == free + Elems(list) && free !! Elems(list) && NoDup(list)
    ensures Card(free0) == Card(free) + |list| && (free == {} ==> Card(free0) == |list|)
  {
    ElemsSize(list);
    CardIs(free0);
    CardIs(free);
  }

  /** The places alloc_spot offers are on page boundaries and aligned as asked. */
  lemma SpotAligned(addr: nat, alignPow2: nat)
    requires Mod(addr, RunAlign(alignPow2)) == 0
    ensures Mod(addr, PAGE_SIZE) == 0 && Mod(addr, Pow2(alignPow2)) == 0
  {
    RunAligned(addr, alignPow2);
  }

  lemma RegionUpdate(rs: seq<Region>, lo: nat, asize: nat, k: nat, b: nat, size: nat, pages: seq<nat>)
    requires k <= |rs| && Listed(Insert(rs, k, Region(b, size, [])), lo, asize)
    ensures var r := Insert(rs, k, Region(b, size, []))[k := Region(b, size, pages)];
            r == Insert(rs, k, Region(b, size, pages)) && Listed(r, lo, asize)
  {
    var s := Insert(rs, k, Region(b, size, []));
    var r := s[k := Region(b, size, pages)];
    forall i | 0 <= i < |r| ensures r[i].base == s[i].base && r[i].size == s[i].size {
    }
    forall i, j | 0 <= i < j < |r| ensures r[i].End() <= r[j].base {
      assert s[i].End() <= s[j].base;
    }
  }

  lemma PageSizes(rs: seq<Region>)
    requires OnPages(rs)
    ensures forall i :: 0 <= i < |rs| ==> rs[i].size % PAGE_SIZE == 0
  {
    forall i | 0 <= i < |rs| ensures rs[i].size % PAGE_SIZE == 0 {
      assert RegionOnPages(rs, i);
    }
  }

  lemma NewHolder(rs: seq<Region>, rs': seq<Region>, lo: nat, asize: nat, k: nat, addr: nat, list: seq<nat>)
    requires k <= |rs| && Allocated(rs, rs', k, addr, list) && Listed(rs', lo, asize)
    ensures k < |rs'| && rs'[k] == Region(addr, |list| * PAGE_SIZE, list)
    ensures forall i :: 0 <= i < |rs'| && rs'[i].Has(addr) <==> i == k
  {
    OnlyHolder(rs', lo, asize, k, addr);
  }

  /** What taking region `k` off the list and unmapping it leaves. */
  lemma AfterRemove(g: Geometry, m: Memory, m': Memory, rs: seq<Region>, rs': seq<Region>, lo: nat, asize: nat,
                    base: nat, k: nat, held: set<nat>)
    requires g.Valid() && k < |rs| && rs' == Delete(rs, k) && Listed(rs, lo, asize) && base <= rs[k].base
    requires OnPages(rs) && PagesHeld(rs, held) && Covered(g, m, rs, base)
    requires Unmaps(g, m, m', g.root, g.Top(), rs[k].base - base, rs[k].size)
    ensures Listed(rs', lo, asize) && OnPages(rs') && Covered(g, m', rs', base)
    ensures NoDup(rs[k].pages) && Elems(rs[k].pages) <= held && PagesHeld(rs', held - Elems(rs[k].pages))
    ensures RemovesExactly(g, m, m', g.root, g.Top(), rs[k].base - base, rs[k].size)
  {
    DeleteListed(rs, lo, asize, k);
    OnPagesDelete(rs, k);
    CoveredDelete(g, m, m', rs, base, k);
    HeldDelete(rs, held, k);
    CoveredNoStraddle(g, m, rs, lo, asize, base, k);
    UnmapExactIff(g, m, m', g.root, g.Top(), rs[k].base - base, rs[k].size);
  }

  lemma FreedNew(rs: seq<Region>, rs1: seq<Region>, rs': seq<Region>, lo: nat, asize: nat, k: nat, k': nat, addr: nat,
                 list: seq<nat>)
    requires k <= |rs| && Allocated(rs, rs1, k, addr, list) && Listed(rs1, lo, asize)
    requires k' < |rs1| && RemovedAt(rs1, rs', k', addr, rs1[k'])
    ensures k' == k && rs' == rs && rs1[k'] == Region(addr, |list| * PAGE_SIZE, list)
  {
    NewHolder(rs, rs1, lo, asize, k, addr, list);
    DeleteInsert(rs, k, Region(addr, |list| * PAGE_SIZE, list));
  }

  lemma SameFree(tables: set<nat>, free: set<nat>, free0: set<nat>)
    requires tables + free == tables + free0 && tables !! free && tables !! free0
    ensures free == free0
  {
    assert free == (tables + free) - tables && free0 == (tables + free0) - tables;
  }

  lemma SmallMod(x: nat)
    requires x < WORD
    ensures x % WORD == x
  {
  }

  /** The page count of a region as the page allocator gets it, in 32 bits. */
  function ShortCount(size: nat): nat {
    size / PAGE_SIZE % UINT
  }

  /** As many pages as were asked for are as many as the region needs if and only if the count was not truncated. */
  lemma WholeCount(size: nat, n: nat)
    requires size > 0 && size % PAGE_SIZE == 0 && n <= ShortCount(size)
    ensures n >= size / PAGE_SIZE <==> n == ShortCount(size) && size / PAGE_SIZE < UINT
    ensures n >= size / PAGE_SIZE ==> n > 0 && n * PAGE_SIZE == size
    ensures ShortCount(size) == 0 ==> size / PAGE_SIZE >= UINT
  {
  }

  /** Enough pages are free for the count that is asked for. */
  lemma EnoughPages(size: nat, free: nat)
    requires size % PAGE_SIZE == 0 && size / PAGE_SIZE < UINT
    ensures free < ShortCount(size) <==> free * PAGE_SIZE < size
  {
  }

  class Aspace {
    const lo: nat      // first address of the space
    const asize: nat   // its size
    const base: nat    // first address the translation tables cover
    const limit: nat   // how many bytes they cover
    const mmu: PageTables
    var regions: seq<Region>

    ghost predicate Layout() {
      && Space(lo, asize) && base <= lo && lo + asize <= base + limit <= WORD && limit < WORD
      && Mod(base, PAGE_SIZE) == 0 && mmu.g.Valid() && mmu.g.block[0] == PAGE_SIZE
      && (forall n {:trigger Spans(n)} :: n == limit ==> Spans(n))
    }

    /** The tables cover `n` bytes. */
    ghost predicate Spans(n: nat)
      requires mmu.g.Valid()
    {
      n == mmu.g.block[mmu.g.Top()] * mmu.g.topEntries
    }

    /** Page frames that are neither free nor tables: they may be on a region's page list. */
    ghost function Held(): set<nat>
      reads this, mmu, mmu.pmm
    {
      mmu.pmm.pages - mmu.Pages()
    }

    ghost predicate Valid()
      reads this, mmu, mmu.pmm
    {
      && Layout() && mmu.Valid() && Listed(regions, lo, asize)
      && OnPages(regions) && PagesHeld(regions, Held()) && Covered(mmu.g, mmu.mem, regions, base)
      && Neat(mmu.g, mmu.mem, mmu.path)
    }

    constructor (lo: nat, asize: nat, base: nat, limit: nat, mmu: PageTables)
      requires mmu.Valid() && mmu.g.block[0] == PAGE_SIZE && limit == mmu.g.block[mmu.g.Top()] * mmu.g.topEntries
      requires Space(lo, asize) && base <= lo && lo + asize <= base + limit <= WORD && limit < WORD
      requires Mod(base, PAGE_SIZE) == 0
      requires forall rel: nat :: Walk(mmu.g, mmu.mem, mmu.g.root, mmu.g.Top(), rel) == Fault
      requires mmu.mem.Keys == {mmu.g.root}
      ensures Valid() && this.mmu == mmu && regions == []
    {
      this.lo, this.asize, this.base, this.limit, this.mmu := lo, asize, base, limit, mmu;
      regions := [];
    }

    /** Since `m0` entries and tables were added only on `size` bytes at `vaddr`. */
    ghost predicate AddedOn(m0: Memory, path0: Paths, vaddr: nat, size: nat)
      requires Layout() && base <= vaddr
      reads mmu
    {
      Grows(mmu.g, m0, path0, mmu.mem, mmu.path, [], mmu.g.Top(), vaddr - base, size)
    }

    /** Since `m0` entries were only cleared and tables only dropped, and none that is empty is left on `size` bytes at
        `vaddr`. */
    ghost predicate TidiedOn(m0: Memory, path0: Paths, vaddr: nat, size: nat)
      requires Layout() && base <= vaddr
      reads mmu
    {
      && Shrinks(m0, path0, mmu.mem, mmu.path)
      && Tidy(mmu.g, mmu.mem, mmu.path, [], mmu.g.Top(), vaddr - base, size)
    }

    /** A range of pages in the space, and a page frame. */
    ghost predicate Mappable(vaddr: nat, pa: nat, count: nat) {
      && base <= lo <= vaddr && 0 < count && vaddr + count * PAGE_SIZE <= lo + asize
      && Mod(vaddr, PAGE_SIZE) == 0 && Mod(pa, PAGE_SIZE) == 0
    }

    /** arch_mmu_map */
    method ArchMap(vaddr: nat, pa: nat, count: nat, attrs: nat) returns (st: Status)
      requires Layout() && mmu.Valid() && vaddr < WORD && count * PAGE_SIZE < WORD
      modifies mmu, mmu.pmm
      ensures mmu.Valid() && mmu.Pages() == old(mmu.Pages()) && mmu.pmm.pages == old(mmu.pmm.pages)
      ensures st == NoError && count > 0 ==>
                && base <= vaddr
                && Maps(mmu.g, old(mmu.mem), mmu.mem, mmu.g.root, mmu.g.Top(), vaddr - base, pa, count * PAGE_SIZE,
                        attrs)
      ensures st == NoError ==> Mod(vaddr, PAGE_SIZE) == 0
      ensures st == NoError && count > 0 ==>
                && base <= vaddr
                && Card(old(mmu.pmm.free))
                   == Card(mmu.pmm.free)
                      + Lack(mmu.g, old(mmu.mem), mmu.g.root, mmu.g.Top(), vaddr - base, pa, count * PAGE_SIZE)
      ensures st != NoError || count == 0 ==> SameWalk(mmu.g, old(mmu.mem), mmu.mem, mmu.g.root, mmu.g.Top())
      ensures lo <= vaddr < lo + asize && Mod(vaddr, PAGE_SIZE) != 0 ==> st == ErrInvalidArgs
      ensures Mod(vaddr, PAGE_SIZE) != 0 ==> mmu.mem == old(mmu.mem) && mmu.path == old(mmu.path)
      ensures base <= vaddr ==> AddedOn(old(mmu.mem), old(mmu.path), vaddr, count * PAGE_SIZE)
      ensures st == NoError ==> Extends(old(mmu.mem), mmu.mem)
      ensures Mappable(vaddr, pa, count) ==>
                st == if Blocked(mmu.g, old(mmu.mem), Card(old(mmu.pmm.free)), mmu.g.root, mmu.g.Top(), vaddr - base,
                                 pa, count * PAGE_SIZE)
                      then ErrGeneric else NoError
    {
      ghost var rel := if base <= vaddr then vaddr - base else 0;
      GrowsSelf(mmu.g, mmu.mem, mmu.path, [], mmu.g.Top(), rel, count * PAGE_SIZE);
      if !(lo <= vaddr <= lo + asize - 1) {
        return ErrOutOfRange;
      }
      if Mod(vaddr, PAGE_SIZE) != 0 || Mod(pa, PAGE_SIZE) != 0 {
        return ErrInvalidArgs;
      }
      if count == 0 {
        return NoError;
      }
      SmallMod(vaddr - base);
      assert Aligned(mmu.g, vaddr - base, pa, count * PAGE_SIZE) by {
        ModSub(vaddr, base, PAGE_SIZE);
        ModMul(count, PAGE_SIZE, PAGE_SIZE);
      }
      assert Spans(limit);
      st := mmu.Map(vaddr, pa, count * PAGE_SIZE, attrs, base, limit, vaddr - base);
    }

    /** arch_mmu_unmap */
    method ArchUnmap(vaddr: nat, count: nat) returns (st: Status)
      requires Layout() && mmu.Valid() && vaddr < WORD && count * PAGE_SIZE < WORD
      modifies mmu, mmu.pmm
      ensures mmu.Valid() && mmu.Pages() == old(mmu.Pages()) && mmu.pmm.pages == old(mmu.pmm.pages)
      ensures lo <= vaddr < lo + asize && vaddr + count * PAGE_SIZE <= lo + asize && Mod(vaddr, PAGE_SIZE) == 0
              ==> st == NoError
      ensures st == NoError ==>
                && base <= vaddr && Mod(vaddr, PAGE_SIZE) == 0
                && Unmaps(mmu.g, old(mmu.mem), mmu.mem, mmu.g.root, mmu.g.Top(), vaddr - base, count * PAGE_SIZE)
      ensures st == NoError ==> TidiedOn(old(mmu.mem), old(mmu.path), vaddr, count * PAGE_SIZE)
      ensures st != NoError ==> mmu.mem == old(mmu.mem) && mmu.path == old(mmu.path)
    {
      if !(lo <= vaddr <= lo + asize - 1) {
        return ErrOutOfRange;
      }
      if Mod(vaddr, PAGE_SIZE) != 0 {
        return ErrInvalidArgs;
      }
      SmallMod(vaddr - base);
      assert Spans(limit);
      st := mmu.Unmap(vaddr, count * PAGE_SIZE, base, limit, vaddr - base);
    }

    /** The address asked for is outside the space or taken; or no aligned address has room. */
    ghost predicate NoPlaceFor(rs: seq<Region>, size: nat, vaddr: nat, specific: bool, alignPow2: nat) {
      if specific then !(lo <= vaddr && vaddr + size <= lo + asize && Clear(rs, vaddr, size))
      else NoRoom(rs, lo, asize, RunAlign(alignPow2), size)
    }

    /** The region is where it was asked for, or at the lowest aligned address with room. */
    ghost predicate PlacedAt(rs: seq<Region>, size: nat, addr: nat, vaddr: nat, specific: bool, alignPow2: nat) {
      && base <= lo <= addr
      && if specific then addr == vaddr
         else && Room(rs, lo, asize, RunAlign(alignPow2), size, addr)
              && RoomFrom(rs, lo, asize, RunAlign(alignPow2), size, addr)
    }

    /** There are too few free pages or more are needed than can be asked for, no heap memory or no place for the
        region. */
    ghost predicate Exhausted(free: nat, rs: seq<Region>, size: nat, vaddr: nat, specific: bool, alignPow2: nat,
                              heapOk: bool) {
      size / PAGE_SIZE >= UINT || free * PAGE_SIZE < size || !heapOk || NoPlaceFor(rs, size, vaddr, specific, alignPow2)
    }

    /** alloc_region: insert an empty region at a given address, or at the lowest place with room. */
    method AllocRegion(size: nat, vaddr: nat, specific: bool, alignPow2: nat, heapOk: bool) returns (k: Option<nat>)
      requires Layout() && Listed(regions, lo, asize)
      requires 1 < size < WORD && vaddr < WORD && alignPow2 < 64
      modifies this
      ensures k.None? ==> regions == old(regions)
      ensures k.None? <==> !heapOk || NoPlaceFor(old(regions), size, vaddr, specific, alignPow2)
      ensures k.Some? ==>
                && k.value <= |old(regions)| && k.value < |regions| && Listed(regions, lo, asize)
                && regions == Insert(old(regions), k.value, Region(regions[k.value].base, size, []))
                && Clear(old(regions), regions[k.value].base, size)
                && PlacedAt(old(regions), size, regions[k.value].base, vaddr, specific, alignPow2)
    {
      k := None;
      var at := vaddr;
      if !heapOk {
        return;
      }
      if specific {
        k := PlaceRegion(regions, lo, asize, vaddr, size);
      } else {
        var spot := AllocSpot(regions, lo, asize, size, alignPow2);
        if spot.Some? {
          at, k := spot.value.0, Some(spot.value.1);
        }
      }
      if k.Some? {
        Put(k.value, Region(at, size, []));
      }
    }

    /** The list insertion. */
    method Put(k: nat, r: Region)
      requires Layout() && Listed(regions, lo, asize) && k <= |regions|
      requires r.size > 0 && lo <= r.base && r.End() <= lo + asize
      requires (k > 0 ==> regions[k - 1].End() <= r.base) && (k < |regions| ==> r.End() <= regions[k].base)
      modifies this
      ensures k < |regions| && regions[k] == r && regions == Insert(old(regions), k, r) && Listed(regions, lo, asize)
    {
      InsertListed(regions, lo, asize, k, r);
      DeleteInsert(regions, k, r);
      regions := Insert(regions, k, r);
    }

    /** The status of mapping `count` pages one by one at a vacant address, with `free` pages left: an address off the
        page boundary is refused; otherwise the tables may run out. */
    ghost function MapStatus(live: set<seq<nat>>, free: int, addr: nat, count: nat): Status
      requires mmu.g.Valid() && base <= addr
    {
      if Mod(addr, PAGE_SIZE) != 0 then ErrInvalidArgs
      else if TooFewTables(mmu.g, live, free, addr - base, count) then ErrGeneric else NoError
    }

    /** Only an address that was asked for can be refused as unaligned. */
    lemma OnlyAskedRefused(rs: seq<Region>, size: nat, addr: nat, vaddr: nat, specific: bool, alignPow2: nat,
                           live: set<seq<nat>>, free: int, count: nat)
      requires Layout() && PlacedAt(rs, size, addr, vaddr, specific, alignPow2)
      ensures MapStatus(live, free, addr, count) == ErrInvalidArgs <==> specific && Mod(vaddr, PAGE_SIZE) != 0
    {
      if !specific {
        SpotAligned(addr, alignPow2);
      }
    }

    /** The tables for the first `n` pages at `vaddr` are there. */
    ghost predicate MadeFor(live0: set<seq<nat>>, free0: nat, vaddr: nat, n: nat)
      requires mmu.g.Valid() && base <= vaddr
      reads mmu, mmu.pmm
    {
      TablesMade(mmu.g, live0, free0, mmu.path.Values, Card(mmu.pmm.free), vaddr - base, n)
    }

    /** The mapping loop of vmm_alloc: one page at a time until one fails. */
    method MapPages(vaddr: nat, list: seq<nat>, attrs: nat) returns (st: Status, n: nat)
      requires Layout() && mmu.Valid() && lo <= vaddr && vaddr + |list| * PAGE_SIZE <= lo + asize
      requires NoneMeets(mmu.g, mmu.mem, vaddr - base, |list| * PAGE_SIZE)
      requires forall i :: 0 <= i < |list| ==> Mod(list[i], PAGE_SIZE) == 0
      modifies mmu, mmu.pmm
      ensures st == NoError <==> n == |list|
      ensures list != [] ==> st == MapStatus(old(mmu.path).Values, Card(old(mmu.pmm.free)), vaddr, |list|)
      ensures mmu.Valid() && mmu.Pages() == old(mmu.Pages()) && mmu.pmm.pages == old(mmu.pmm.pages)
      ensures n <= |list| && PagesMapped(mmu.g, old(mmu.mem), mmu.mem, vaddr - base, list, n, attrs)
      ensures n > 0 ==> Mod(vaddr, PAGE_SIZE) == 0
      ensures Mod(vaddr, PAGE_SIZE) != 0 ==> mmu.mem == old(mmu.mem) && mmu.path == old(mmu.path)
      ensures AddedOn(old(mmu.mem), old(mmu.path), vaddr, |list| * PAGE_SIZE)
    {
      n := 0;
      GrowsSelf(mmu.g, mmu.mem, mmu.path, [], mmu.g.Top(), vaddr - base, |list| * PAGE_SIZE);
      NoneMade(vaddr);
      while n < |list|
        invariant n <= |list| && mmu.Valid() && mmu.Pages() == old(mmu.Pages()) && mmu.pmm.pages == old(mmu.pmm.pages)
        invariant PagesMapped(mmu.g, old(mmu.mem), mmu.mem, vaddr - base, list, n, attrs)
        invariant if Mod(vaddr, PAGE_SIZE) == 0 then n >= 0
                  else n == 0 && mmu.mem == old(mmu.mem) && mmu.path == old(mmu.path)
        invariant Extends(old(mmu.mem), mmu.mem) && AddedOn(old(mmu.mem), old(mmu.path), vaddr, |list| * PAGE_SIZE)
        invariant MadeFor(old(mmu.path).Values, Card(old(mmu.pmm.free)), vaddr, n)
      {
        st := MapPage(vaddr, list, n, attrs, old(mmu.mem), old(mmu.path), Card(old(mmu.pmm.free)));
        if st != NoError {
          return;
        }
        n := n + 1;
      }
      assert !TooFewTables(mmu.g, old(mmu.path).Values, Card(old(mmu.pmm.free)), vaddr - base, |list|);
      return NoError, n;
    }

    lemma NoneMade(vaddr: nat)
      requires mmu.g.Valid() && base <= vaddr
      ensures MadeFor(mmu.path.Values, Card(mmu.pmm.free), vaddr, 0)
    {
      var live := mmu.path.Values;
      assert Places(mmu.g, vaddr - base, 0) - live == {} && live + {} == live;
    }

    lemma PageAdded(m0: Memory, path0: Paths, m: Memory, path: Paths, vaddr: nat, at: nat, count: nat, n: nat)
      requires Layout() && mmu.Valid() && base <= vaddr && n < count && at == vaddr + n * PAGE_SIZE
      requires Extends(m0, m) && Grows(mmu.g, m0, path0, m, path, [], mmu.g.Top(), vaddr - base, count * PAGE_SIZE)
      requires Grows(mmu.g, m, path, mmu.mem, mmu.path, [], mmu.g.Top(), at - base, PAGE_SIZE)
      ensures AddedOn(m0, path0, vaddr, count * PAGE_SIZE)
      ensures Extends(m, mmu.mem) ==> Extends(m0, mmu.mem)
    {
      GrowsWider(mmu.g, m, path, mmu.mem, mmu.path, [], mmu.g.Top(), at - base, PAGE_SIZE, vaddr - base,
        count * PAGE_SIZE);
      GrowsTrans(mmu.g, m0, path0, m, path, mmu.mem, mmu.path, [], mmu.g.Top(), vaddr - base, count * PAGE_SIZE);
      if Extends(m, mmu.mem) {
        ExtendsTrans(m0, m, mmu.mem);
      }
    }

    /** One turn of that loop. */
    method MapPage(vaddr: nat, list: seq<nat>, n: nat, attrs: nat, ghost m0: Memory, ghost path0: Paths,
                   ghost free0: nat) returns (st: Status)
      requires Layout() && mmu.Valid() && lo <= vaddr && vaddr + |list| * PAGE_SIZE <= lo + asize && n < |list|
      requires NoneMeets(mmu.g, m0, vaddr - base, |list| * PAGE_SIZE) && Mod(list[n], PAGE_SIZE) == 0
      requires PagesMapped(mmu.g, m0, mmu.mem, vaddr - base, list, n, attrs)
      requires MadeFor(path0.Values, free0, vaddr, n)
      requires Extends(m0, mmu.mem) && AddedOn(m0, path0, vaddr, |list| * PAGE_SIZE)
      modifies mmu, mmu.pmm
      ensures AddedOn(m0, path0, vaddr, |list| * PAGE_SIZE) && (st == NoError ==> Extends(m0, mmu.mem))
      ensures Mod(vaddr, PAGE_SIZE) != 0 ==> mmu.mem == old(mmu.mem) && mmu.path == old(mmu.path)
      ensures mmu.Valid() && mmu.Pages() == old(mmu.Pages()) && mmu.pmm.pages == old(mmu.pmm.pages)
      ensures st == NoError ==> PagesMapped(mmu.g, m0, mmu.mem, vaddr - base, list, n + 1, attrs)
      ensures st != NoError ==> PagesMapped(mmu.g, m0, mmu.mem, vaddr - base, list, n, attrs)
      ensures st == NoError ==> Mod(vaddr, PAGE_SIZE) == 0 && MadeFor(path0.Values, free0, vaddr, n + 1)
      ensures st != NoError ==> st == MapStatus(path0.Values, free0, vaddr, |list|)
    {
      ghost var m, path, up, free := mmu.mem, mmu.path, mmu.up, Card(mmu.pmm.free);
      var at := vaddr + n * PAGE_SIZE;
      assert at + PAGE_SIZE <= lo + asize && at - base == vaddr - base + n * PAGE_SIZE;
      NextPageAligned(vaddr, n);
      st := ArchMap(at, list[n], 1, attrs);
      PageAdded(m0, path0, m, path, vaddr, at, |list|, n);
      if st == NoError {
        PageMade(vaddr, at, n, list[n], attrs, path0.Values, free0, m, path, up, free);
        PagesMappedNext(mmu.g, m0, m, mmu.mem, vaddr - base, at - base, list, n, attrs);
        return;
      } else {
        PageStopped(st, vaddr, at, n, list, attrs, m0, path0.Values, free0, m, path, up, free);
        MappedSame(mmu.g, m0, m, mmu.mem, vaddr - base, list, n, attrs);
        return;
      }
    }

    lemma PageMade(vaddr: nat, at: nat, n: nat, pa: nat, attrs: nat, live0: set<seq<nat>>, free0: nat, m: Memory,
                   path: Paths, up: Parents, free: nat)
      requires Layout() && mmu.Valid() && base <= vaddr && at == vaddr + n * PAGE_SIZE && Mod(vaddr, PAGE_SIZE) == 0
      requires Rooted(mmu.g, m, path, up) && TablesMade(mmu.g, live0, free0, path.Values, free, vaddr - base, n)
      requires Extends(m, mmu.mem) && AddedOn(m, path, at, PAGE_SIZE)
      requires Maps(mmu.g, m, mmu.mem, mmu.g.root, mmu.g.Top(), at - base, pa, PAGE_SIZE, attrs)
      requires Card(mmu.pmm.free) + Lack(mmu.g, m, mmu.g.root, mmu.g.Top(), at - base, pa, PAGE_SIZE) == free
      ensures MadeFor(live0, free0, vaddr, n + 1)
    {
      assert TreeFrom(mmu.g, mmu.mem, mmu.path, mmu.up, mmu.g.root);
      assert TreeFrom(mmu.g, m, path, up, mmu.g.root);
      FromBase(vaddr);
      TablesMadeNext(mmu.g, m, path, up, mmu.mem, mmu.path, mmu.up, live0, free0, free, Card(mmu.pmm.free),
                     vaddr - base, at - base, n, pa, attrs);
    }

    lemma PageStopped(st: Status, vaddr: nat, at: nat, n: nat, list: seq<nat>, attrs: nat, m0: Memory,
                      live0: set<seq<nat>>, free0: nat, m: Memory, path: Paths, up: Parents, free: nat)
      requires Layout() && base <= lo <= vaddr && at == vaddr + n * PAGE_SIZE && n < |list|
      requires Mod(list[n], PAGE_SIZE) == 0
      requires vaddr + |list| * PAGE_SIZE <= lo + asize
      requires Rooted(mmu.g, m, path, up) && TablesMade(mmu.g, live0, free0, path.Values, free, vaddr - base, n)
      requires NoneMeets(mmu.g, m0, vaddr - base, |list| * PAGE_SIZE)
      requires PagesMapped(mmu.g, m0, m, vaddr - base, list, n, attrs)
      requires Mod(at, PAGE_SIZE) != 0 ==> st == ErrInvalidArgs
      requires Mappable(at, list[n], 1) ==>
                 st == ErrGeneric && Blocked(mmu.g, m, free, mmu.g.root, mmu.g.Top(), at - base, list[n], PAGE_SIZE)
      ensures st == MapStatus(live0, free0, vaddr, |list|)
    {
      NextPageAligned(vaddr, n);
      if Mod(vaddr, PAGE_SIZE) == 0 {
        FromBase(vaddr);
        assert TreeFrom(mmu.g, m, path, up, mmu.g.root);
        Stopped(mmu.g, m0, m, path, up, live0, free0, free, vaddr - base, at - base, list, n, attrs);
      }
    }

    lemma FromBase(vaddr: nat)
      requires Layout() && base <= vaddr && Mod(vaddr, PAGE_SIZE) == 0
      ensures Mod(vaddr - base, PAGE_SIZE) == 0
    {
      ModSub(vaddr, base, PAGE_SIZE);
    }

    /** vmm_remove_region_locked: take the region that holds `vaddr` off the list and unmap it. */
    method RemoveRegion(vaddr: nat) returns (r: Option<Region>, ghost k: nat)
      requires Layout() && mmu.Valid() && Listed(regions, lo, asize)
      requires forall i :: 0 <= i < |regions| && regions[i].Has(vaddr) ==> regions[i].size % PAGE_SIZE == 0
      modifies this, mmu, mmu.pmm
      ensures mmu.Valid() && mmu.Pages() == old(mmu.Pages()) && mmu.pmm.pages == old(mmu.pmm.pages)
      ensures r.None? ==> regions == old(regions) && mmu.mem == old(mmu.mem) && mmu.path == old(mmu.path)
      ensures r.None? <==> forall i :: 0 <= i < |old(regions)| ==> !old(regions)[i].Has(vaddr)
      ensures r.Some? ==> k < |old(regions)| && RemovedAt(old(regions), regions, k, vaddr, r.value)
      ensures r.Some? && Mod(r.value.base, PAGE_SIZE) == 0 ==>
                && base <= r.value.base
                && Unmaps(mmu.g, old(mmu.mem), mmu.mem, mmu.g.root, mmu.g.Top(), r.value.base - base, r.value.size)
      ensures r.Some? && Mod(r.value.base, PAGE_SIZE) == 0 ==>
                base <= r.value.base && TidiedOn(old(mmu.mem), old(mmu.path), r.value.base, r.value.size)
      ensures r.Some? && Mod(r.value.base, PAGE_SIZE) != 0 ==> mmu.mem == old(mmu.mem) && mmu.path == old(mmu.path)
    {
      var at := FindRegion(regions, lo, asize, vaddr);
      if at.None? {
        return None, 0;
      }
      r, k := Some(regions[at.value]), at.value;
      regions := Delete(regions, at.value);
      var st := ArchUnmap(r.value.base, r.value.size / PAGE_SIZE);
    }

    /** pmm_free on data pages: the tables are not touched. */
    method GiveBack(list: seq<nat>)
      requires mmu.Valid() && DataPages(list)
      modifies mmu.pmm
      ensures mmu.Valid() && mmu.pmm.pages == old(mmu.pmm.pages)
      ensures mmu.Pages() == old(mmu.Pages()) + Elems(list) && mmu.pmm.free == old(mmu.pmm.free) + Elems(list)
    {
      mmu.pmm.PagesAligned();
      assert forall p :: p in list ==> p in Elems(list);
      var count := mmu.pmm.Free(list);
    }

    /** Pages taken from the allocator that are not tables. */
    ghost predicate DataPages(list: seq<nat>)
      reads this, mmu, mmu.pmm
    {
      NoDup(list) && Elems(list) <= mmu.pmm.pages && Elems(list) !! mmu.Pages()
    }

    /** The pages of the list were taken from the free pages `free0`. */
    ghost predicate TakenFrom(free0: set<nat>, list: seq<nat>)
      reads mmu, mmu.pmm
    {
      free0 == mmu.pmm.free + Elems(list) && Card(mmu.pmm.free) == Card(free0) - |list|
    }

    lemma DataAligned(list: seq<nat>)
      requires mmu.Valid() && DataPages(list)
      ensures forall i :: 0 <= i < |list| ==> Mod(list[i], PAGE_SIZE) == 0
    {
      mmu.pmm.PagesAligned();
      forall i | 0 <= i < |list| ensures Mod(list[i], PAGE_SIZE) == 0 {
        assert list[i] in Elems(list);
        DivMod(list[i], PAGE_SIZE);
      }
    }

    /** Unmapping the region that entries were added for leaves the tables exactly as they were before that. */
    lemma AsBefore(m0: Memory, path0: Paths, up0: Parents, m: Memory, path: Paths, up: Parents, vaddr: nat, size: nat)
      requires Layout() && mmu.Valid() && base <= vaddr && Rooted(mmu.g, m0, path0, up0) && Rooted(mmu.g, m, path, up)
      requires Grows(mmu.g, m0, path0, m, path, [], mmu.g.Top(), vaddr - base, size) && TidiedOn(m, path, vaddr, size)
      requires Neat(mmu.g, m0, path0) && SameWalk(mmu.g, m0, mmu.mem, mmu.g.root, mmu.g.Top())
      ensures mmu.mem == m0 && mmu.path == path0
    {
      assert TreeFrom(mmu.g, mmu.mem, mmu.path, mmu.up, mmu.g.root);
      assert TreeFrom(mmu.g, m0, path0, up0, mmu.g.root) && TreeFrom(mmu.g, m, path, up, mmu.g.root);
      NoneLeft(mmu.g, m0, path0, up0, m, path, mmu.mem, mmu.path, mmu.up, vaddr - base, size);
      GrowsShrinks(mmu.g, m0, path0, m, path, mmu.mem, mmu.path, [], mmu.g.Top(), vaddr - base, size);
      Restored(mmu.g, m0, path0, up0, mmu.mem, mmu.path, mmu.up, vaddr - base, size);
    }

    /** Take the region at `k`, just inserted, out again after `n` of its pages have been mapped. */
    method TakeOut(k: nat, ghost list: seq<nat>, ghost n: nat, ghost attrs: nat, ghost rs: seq<Region>,
                   ghost m0: Memory, ghost path0: Paths, ghost up0: Parents)
      requires Layout() && mmu.Valid() && n <= |list| && list != []
      requires k <= |rs| && k < |regions| && regions == Insert(rs, k, regions[k]) && Listed(regions, lo, asize)
      requires regions[k].size == |list| * PAGE_SIZE
      requires PagesMapped(mmu.g, m0, mmu.mem, regions[k].base - base, list, n, attrs)
      requires n > 0 ==> Mod(regions[k].base, PAGE_SIZE) == 0
      requires NoneMeets(mmu.g, m0, regions[k].base - base, regions[k].size)
      requires Rooted(mmu.g, m0, path0, up0) && lo <= regions[k].base
      requires AddedOn(m0, path0, regions[k].base, regions[k].size)
      requires Neat(mmu.g, m0, path0)
      requires Mod(regions[k].base, PAGE_SIZE) != 0 ==> mmu.mem == m0 && mmu.path == path0
      modifies this, mmu, mmu.pmm
      ensures mmu.Valid() && mmu.pmm.pages == old(mmu.pmm.pages) && mmu.Pages() == old(mmu.Pages())
      ensures regions == rs && mmu.mem == m0 && mmu.path == path0
    {
      var b, size := regions[k].base, regions[k].size;
      ghost var m, path, up := mmu.mem, mmu.path, mmu.up;
      OnlyHolder(regions, lo, asize, k, b);
      var r, j := RemoveRegion(b);
      RemovesInserted(rs, old(regions), regions, lo, asize, k, b, j, r.value);
      if Mod(b, PAGE_SIZE) == 0 {
        MappedInside(mmu.g, m0, m, b - base, list, n, attrs, size);
        RegionCleared(mmu.g, m0, m, mmu.mem, b - base, size);
        AsBefore(m0, path0, up0, m, path, up, b, size);
      }
    }

    /** The error exit of vmm_alloc after mapping `n` pages of `list` into region `k`. */
    method Undo(k: nat, list: seq<nat>, n: nat, ghost attrs: nat, ghost rs: seq<Region>, ghost m0: Memory,
                ghost path0: Paths, ghost up0: Parents)
      requires Layout() && mmu.Valid() && DataPages(list) && n < |list|
      requires k <= |rs| && k < |regions| && regions == Insert(rs, k, regions[k]) && Listed(regions, lo, asize)
      requires regions[k].size == |list| * PAGE_SIZE
      requires PagesMapped(mmu.g, m0, mmu.mem, regions[k].base - base, list, n, attrs)
      requires n > 0 ==> Mod(regions[k].base, PAGE_SIZE) == 0
      requires NoneMeets(mmu.g, m0, regions[k].base - base, regions[k].size)
      requires Rooted(mmu.g, m0, path0, up0) && lo <= regions[k].base
      requires AddedOn(m0, path0, regions[k].base, regions[k].size)
      requires Neat(mmu.g, m0, path0)
      requires Mod(regions[k].base, PAGE_SIZE) != 0 ==> mmu.mem == m0 && mmu.path == path0
      modifies this, mmu, mmu.pmm
      ensures mmu.Valid() && mmu.pmm.pages == old(mmu.pmm.pages)
      ensures mmu.Pages() == old(mmu.Pages()) + Elems(list) && Elems(list) <= mmu.pmm.free
      ensures regions == rs && mmu.mem == m0 && mmu.path == path0
    {
      TakeOut(k, list, n, attrs, rs, m0, path0, up0);
      GiveBackBoth(list, n);
    }

    /** Free the region's page list and then what is left of the caller's, the failed page last. */
    method GiveBackBoth(list: seq<nat>, n: nat)
      requires mmu.Valid() && DataPages(list) && n < |list|
      modifies mmu.pmm
      ensures mmu.Valid() && mmu.pmm.pages == old(mmu.pmm.pages)
      ensures mmu.Pages() == old(mmu.Pages()) + Elems(list) && mmu.pmm.free == old(mmu.pmm.free) + Elems(list)
    {
      var done, rest := list[..n], list[n + 1..] + [list[n]];
      SplitList(list, n, done, rest);
      GiveBack(done);
      GiveBack(rest);
    }

    /** The last part of vmm_alloc: fill the region just inserted at `k`, or take it out again. */
    method Fill(k: nat, list: seq<nat>, attrs: nat, ghost rs: seq<Region>) returns (st: Status)
      requires Layout() && mmu.Valid() && DataPages(list) && list != []
      requires k <= |rs| && k < |regions| && regions == Insert(rs, k, Region(regions[k].base, |list| * PAGE_SIZE, []))
      requires Listed(regions, lo, asize) && Clear(rs, regions[k].base, |list| * PAGE_SIZE)
      requires Covered(mmu.g, mmu.mem, rs, base) && Neat(mmu.g, mmu.mem, mmu.path)
      modifies this, mmu, mmu.pmm
      ensures mmu.Valid() && mmu.pmm.pages == old(mmu.pmm.pages)
      ensures st == NoError ==> && regions == Insert(rs, k, Region(old(regions)[k].base, |list| * PAGE_SIZE, list))
                                && Listed(regions, lo, asize) && Mod(old(regions)[k].base, PAGE_SIZE) == 0
                                && mmu.Pages() == old(mmu.Pages())
                                && PagesMapped(mmu.g, old(mmu.mem), mmu.mem, old(regions)[k].base - base, list,
                                     |list|, attrs)
                                && AddedOn(old(mmu.mem), old(mmu.path), old(regions)[k].base, |list| * PAGE_SIZE)
      ensures st != NoError ==> && regions == rs && mmu.mem == old(mmu.mem) && mmu.path == old(mmu.path)
                                && mmu.pmm.free == old(mmu.pmm.free) + Elems(list)
      ensures st == MapStatus(old(mmu.path).Values, Card(old(mmu.pmm.free)), old(regions)[k].base, |list|)
    {
      var addr, size := regions[k].base, regions[k].size;
      CoveredClear(mmu.g, mmu.mem, rs, base, addr, size);
      DataAligned(list);
      var n;
      st, n := MapPages(addr, list, attrs);
      RegionUpdate(rs, lo, asize, k, addr, size, list[..n]);
      regions := regions[k := Region(addr, size, list[..n])];
      if st != NoError {
        Undo(k, list, n, attrs, rs, old(mmu.mem), old(mmu.path), old(mmu.up));
        SameFree(mmu.mem.Keys, mmu.pmm.free, old(mmu.pmm.free) + Elems(list));
        return;
      }
      assert list[..n] == list;
      return;
    }

    /** vmm_alloc.  On success the new region maps the pages taken, in order; on any failure the region
        list and every translation are as before and every page taken is free again. */
    method Alloc(bytes: nat, ptr: Option<nat>, specific: bool, alignPow2: nat, attrs: nat, heapOk: bool)
      returns (st: Status, addr: nat, ghost k: nat, ghost list: seq<nat>)
      requires Valid() && bytes < WORD && alignPow2 < 64 && (ptr.Some? ==> ptr.value < WORD)
      modifies this, mmu, mmu.pmm
      ensures Valid() && mmu.pmm.pages == old(mmu.pmm.pages)
      ensures st != NoError ==> regions == old(regions) && mmu.mem == old(mmu.mem) && mmu.pmm.free == old(mmu.pmm.free)
      ensures Elems(list) <= old(mmu.pmm.free)
      ensures st == NoError ==>
                && k <= |old(regions)| && Allocated(old(regions), regions, k, addr, list)
                && |list| * PAGE_SIZE == RoundUp(bytes, PAGE_SIZE) && base <= addr
                && mmu.Pages() == old(mmu.Pages()) - Elems(list) && Elems(list) <= old(mmu.Pages())
                && PagesMapped(mmu.g, old(mmu.mem), mmu.mem, addr - base, list, |list|, attrs)
                && AddedOn(old(mmu.mem), old(mmu.path), addr, |list| * PAGE_SIZE)
      ensures var size := RoundUp(bytes, PAGE_SIZE);
              var vaddr := if specific && ptr.Some? then ptr.value else 0;
              if Wrap(size) == 0 || (specific && ptr.None?) then st == ErrInvalidArgs
              else if Exhausted(Card(old(mmu.pmm.free)), old(regions), size, vaddr, specific, alignPow2, heapOk)
              then st == ErrNoMemory
              else && |list| * PAGE_SIZE == size && PlacedAt(old(regions), size, addr, vaddr, specific, alignPow2)
                   && st == MapStatus(old(mmu.path).Values, Card(old(mmu.pmm.free)) - |list|, addr, |list|)
    {
      var size := Wrap(RoundUp(bytes, PAGE_SIZE));
      addr, k, list := 0, 0, [];
      st := ErrInvalidArgs;
      if size != 0 && (!specific || ptr.Some?) {
        RoundUpPages(bytes);
        st, addr, k, list := AllocAt(size, if specific then ptr.value else 0, specific, alignPow2, attrs, heapOk);
      }
    }

    /** vmm_alloc after its argument checks: take the pages, then find them a place. */
    method AllocAt(size: nat, vaddr: nat, specific: bool, alignPow2: nat, attrs: nat, heapOk: bool)
      returns (st: Status, addr: nat, ghost k: nat, ghost list: seq<nat>)
      requires Valid() && 0 < size < WORD && size % PAGE_SIZE == 0 && alignPow2 < 64 && vaddr < WORD
      modifies this, mmu, mmu.pmm
      ensures Valid() && mmu.pmm.pages == old(mmu.pmm.pages)
      ensures st != NoError ==> regions == old(regions) && mmu.mem == old(mmu.mem) && mmu.pmm.free == old(mmu.pmm.free)
      ensures Elems(list) <= old(mmu.pmm.free)
      ensures st == NoError ==>
                && k <= |old(regions)| && Allocated(old(regions), regions, k, addr, list)
                && |list| * PAGE_SIZE == size && base <= addr
                && mmu.Pages() == old(mmu.Pages()) - Elems(list) && Elems(list) <= old(mmu.Pages())
                && PagesMapped(mmu.g, old(mmu.mem), mmu.mem, addr - base, list, |list|, attrs)
                && AddedOn(old(mmu.mem), old(mmu.path), addr, |list| * PAGE_SIZE)
      ensures if Exhausted(Card(old(mmu.pmm.free)), old(regions), size, vaddr, specific, alignPow2, heapOk)
              then st == ErrNoMemory
              else && |list| * PAGE_SIZE == size && PlacedAt(old(regions), size, addr, vaddr, specific, alignPow2)
                   && st == MapStatus(old(mmu.path).Values, Card(old(mmu.pmm.free)) - |list|, addr, |list|)
    {
      var pages := TakePages(size);
      addr, k, list := vaddr, 0, pages;
      if |pages| < size / PAGE_SIZE {
        Decline(pages);
        return ErrNoMemory, addr, k, list;
      }
      st, addr, k := Place(pages, size, vaddr, specific, alignPow2, attrs, heapOk, old(mmu.pmm.free));
    }

    /** pmm_alloc_pages, for pages that are to go on a region's list. */
    method TakePages(size: nat) returns (pages: seq<nat>)
      requires Valid() && size > 0 && size % PAGE_SIZE == 0
      modifies mmu.pmm
      ensures Layout() && mmu.Valid() && DataPages(pages) && mmu.mem == old(mmu.mem)
      ensures mmu.pmm.pages == old(mmu.pmm.pages)
      ensures Listed(regions, lo, asize) && Covered(mmu.g, mmu.mem, regions, base)
      ensures OnPages(regions) && PagesHeld(regions, Held() - Elems(pages))
      ensures mmu.Pages() == old(mmu.Pages()) - Elems(pages) && Elems(pages) <= old(mmu.Pages())
      ensures old(mmu.pmm.free) == mmu.pmm.free + Elems(pages)
      ensures Card(mmu.pmm.free) == Card(old(mmu.pmm.free)) - |pages|
      ensures |pages| < size / PAGE_SIZE <==> size / PAGE_SIZE >= UINT || Card(old(mmu.pmm.free)) * PAGE_SIZE < size
      ensures |pages| >= size / PAGE_SIZE ==> pages != [] && |pages| * PAGE_SIZE == size
    {
      pages := mmu.pmm.AllocPages(ShortCount(size));
      TakenPages(mmu.pmm.free, old(mmu.pmm.free), mmu.mem.Keys, pages);
      TakenCount(mmu.pmm.free, old(mmu.pmm.free), pages);
      assert Held() - Elems(pages) == old(Held());
      WholeCount(size, |pages|);
      if size / PAGE_SIZE < UINT {
        EnoughPages(size, Card(old(mmu.pmm.free)));
      }
    }

    /** vmm_alloc once it has its pages. */
    method Place(list: seq<nat>, size: nat, vaddr: nat, specific: bool, alignPow2: nat, attrs: nat, heapOk: bool,
                 ghost free0: set<nat>)
      returns (st: Status, addr: nat, ghost k: nat)
      requires Layout() && mmu.Valid() && DataPages(list) && list != [] && size == |list| * PAGE_SIZE < WORD
      requires Listed(regions, lo, asize) && Covered(mmu.g, mmu.mem, regions, base)
      requires OnPages(regions) && PagesHeld(regions, Held() - Elems(list)) && vaddr < WORD && alignPow2 < 64
      requires Neat(mmu.g, mmu.mem, mmu.path) && TakenFrom(free0, list)
      modifies this, mmu, mmu.pmm
      ensures Valid() && mmu.pmm.pages == old(mmu.pmm.pages)
      ensures st != NoError ==> regions == old(regions) && mmu.mem == old(mmu.mem) && mmu.pmm.free == free0
      ensures st == NoError ==>
                && k <= |old(regions)| && Allocated(old(regions), regions, k, addr, list) && base <= addr
                && mmu.Pages() == old(mmu.Pages())
                && PagesMapped(mmu.g, old(mmu.mem), mmu.mem, addr - base, list, |list|, attrs)
                && AddedOn(old(mmu.mem), old(mmu.path), addr, |list| * PAGE_SIZE)
      ensures if !heapOk || NoPlaceFor(old(regions), size, vaddr, specific, alignPow2) then st == ErrNoMemory
              else && PlacedAt(old(regions), size, addr, vaddr, specific, alignPow2)
                   && st == MapStatus(old(mmu.path).Values, Card(free0) - |list|, addr, |list|)
    {
      var at := AllocRegion(size, vaddr, specific, alignPow2, heapOk);
      addr, k := vaddr, 0;
      if at.None? {
        Decline(list);
        return ErrNoMemory, addr, k;
      }
      k, addr := at.value, regions[at.value].base;
      st := FillAt(at.value, list, attrs, old(regions));
    }

    /** There is no place for the region: its pages go back. */
    method Decline(list: seq<nat>)
      requires Layout() && mmu.Valid() && DataPages(list)
      requires Listed(regions, lo, asize) && Covered(mmu.g, mmu.mem, regions, base)
      requires OnPages(regions) && PagesHeld(regions, Held() - Elems(list)) && Neat(mmu.g, mmu.mem, mmu.path)
      modifies mmu.pmm
      ensures Valid() && mmu.pmm.pages == old(mmu.pmm.pages) && mmu.Pages() == old(mmu.Pages()) + Elems(list)
      ensures mmu.pmm.free == old(mmu.pmm.free) + Elems(list)
    {
      GiveBack(list);
      assert Held() == old(Held()) - Elems(list);
    }

    /** The region has its place at `k`: fill it, with everything undone if that fails. */
    method FillAt(k: nat, list: seq<nat>, attrs: nat, ghost rs: seq<Region>) returns (st: Status)
      requires Layout() && mmu.Valid() && DataPages(list) && list != []
      requires k <= |rs| && k < |regions| && regions == Insert(rs, k, Region(regions[k].base, |list| * PAGE_SIZE, []))
      requires Listed(rs, lo, asize) && Listed(regions, lo, asize) && Clear(rs, regions[k].base, |list| * PAGE_SIZE)
      requires Covered(mmu.g, mmu.mem, rs, base) && OnPages(rs) && PagesHeld(rs, Held() - Elems(list))
      requires Neat(mmu.g, mmu.mem, mmu.path)
      modifies this, mmu, mmu.pmm
      ensures Valid() && mmu.pmm.pages == old(mmu.pmm.pages)
      ensures st != NoError ==> && regions == rs && mmu.mem == old(mmu.mem) && mmu.path == old(mmu.path)
                                && mmu.pmm.free == old(mmu.pmm.free) + Elems(list)
      ensures st == MapStatus(old(mmu.path).Values, Card(old(mmu.pmm.free)), old(regions)[k].base, |list|)
      ensures st == NoError ==>
                && Allocated(rs, regions, k, old(regions)[k].base, list) && base <= old(regions)[k].base
                && Mod(old(regions)[k].base, PAGE_SIZE) == 0
                && mmu.Pages() == old(mmu.Pages())
                && PagesMapped(mmu.g, old(mmu.mem), mmu.mem, old(regions)[k].base - base, list, |list|, attrs)
                && AddedOn(old(mmu.mem), old(mmu.path), old(regions)[k].base, |list| * PAGE_SIZE)
    {
      st := Fill(k, list, attrs, rs);
      if st == NoError {
        assert Held() == old(Held());
        FilledValid(k, old(regions)[k].base, list, attrs, rs, old(mmu.mem), old(mmu.path), old(mmu.up));
      } else {
        assert Held() == old(Held()) - Elems(list);
      }
    }

    lemma FilledValid(k: nat, addr: nat, list: seq<nat>, attrs: nat, rs: seq<Region>, m0: Memory, path0: Paths,
                      up0: Parents)
      requires Layout() && mmu.Valid() && DataPages(list) && k <= |rs| && base <= addr && Mod(addr, PAGE_SIZE) == 0
      requires regions == Insert(rs, k, Region(addr, |list| * PAGE_SIZE, list)) && Listed(regions, lo, asize)
      requires OnPages(rs) && PagesHeld(rs, Held() - Elems(list)) && Covered(mmu.g, m0, rs, base)
      requires PagesMapped(mmu.g, m0, mmu.mem, addr - base, list, |list|, attrs)
      requires Rooted(mmu.g, m0, path0, up0) && Neat(mmu.g, m0, path0) && AddedOn(m0, path0, addr, |list| * PAGE_SIZE)
      ensures Valid()
    {
      assert TreeFrom(mmu.g, mmu.mem, mmu.path, mmu.up, mmu.g.root);
      assert TreeFrom(mmu.g, m0, path0, up0, mmu.g.root);
      StillHit(mmu.g, m0, mmu.mem, addr - base, list, attrs);
      NeatMapped(mmu.g, m0, path0, up0, mmu.mem, mmu.path, mmu.up, addr - base, |list| * PAGE_SIZE);
      var r := Region(addr, |list| * PAGE_SIZE, list);
      CoveredInsert(mmu.g, m0, mmu.mem, rs, base, k, r, list, attrs);
      HeldInsert(rs, Held() - Elems(list), k, r);
      assert Held() - Elems(list) + Elems(list) == Held();
      OnPagesInsert(rs, k, r);
    }

    lemma TidyNeat(m: Memory, path: Paths, up: Parents, vaddr: nat, size: nat)
      requires Layout() && mmu.Valid() && base <= vaddr && Rooted(mmu.g, m, path, up) && Neat(mmu.g, m, path)
      requires RemovesExactly(mmu.g, m, mmu.mem, mmu.g.root, mmu.g.Top(), vaddr - base, size)
      requires TidiedOn(m, path, vaddr, size)
      ensures Neat(mmu.g, mmu.mem, mmu.path)
    {
      assert TreeFrom(mmu.g, mmu.mem, mmu.path, mmu.up, mmu.g.root);
      assert TreeFrom(mmu.g, m, path, up, mmu.g.root);
      NeatUnmapped(mmu.g, m, path, mmu.mem, mmu.path, mmu.up, vaddr - base, size);
    }

    /** vmm_free_region: exactly that region's addresses are unmapped and its pages are free again. */
    method FreeRegion(vaddr: nat) returns (st: Status, ghost k: nat)
      requires Valid()
      modifies this, mmu, mmu.pmm
      ensures Valid() && mmu.pmm.pages == old(mmu.pmm.pages)
      ensures st == ErrNotFound <==> forall i :: 0 <= i < |old(regions)| ==> !old(regions)[i].Has(vaddr)
      ensures st == ErrNotFound ==>
                regions == old(regions) && mmu.mem == old(mmu.mem) && mmu.Pages() == old(mmu.Pages())
      ensures st != ErrNotFound ==>
                && st == NoError && k < |old(regions)| && RemovedAt(old(regions), regions, k, vaddr, old(regions)[k])
                && base <= old(regions)[k].base
                && RemovesExactly(mmu.g, old(mmu.mem), mmu.mem, mmu.g.root, mmu.g.Top(),
                                  old(regions)[k].base - base, old(regions)[k].size)
                && mmu.Pages() == old(mmu.Pages()) + Elems(old(regions)[k].pages)
                && Elems(old(regions)[k].pages) <= mmu.pmm.free
                && TidiedOn(old(mmu.mem), old(mmu.path), old(regions)[k].base, old(regions)[k].size)
    {
      PageSizes(regions);
      var r, j := RemoveRegion(vaddr);
      k := j;
      if r.None? {
        return ErrNotFound, k;
      }
      assert r.value == old(regions)[k];
      assert Mod(r.value.base, PAGE_SIZE) == 0 by {
        OnPagesDelete(old(regions), k);
      }
      FreeRemoved(r.value, k, vaddr, old(regions), old(mmu.mem), old(mmu.path), old(mmu.up));
      return NoError, k;
    }

    /** The pages of region `r`, which was at `k` and is off the list and unmapped, go back. */
    method FreeRemoved(r: Region, ghost k: nat, ghost vaddr: nat, ghost rs: seq<Region>, ghost m: Memory,
                       ghost path: Paths, ghost up: Parents)
      requires Layout() && mmu.Valid() && base <= r.base && k < |rs| && RemovedAt(rs, regions, k, vaddr, r)
      requires Listed(rs, lo, asize) && OnPages(rs) && PagesHeld(rs, Held()) && Covered(mmu.g, m, rs, base)
      requires Unmaps(mmu.g, m, mmu.mem, mmu.g.root, mmu.g.Top(), r.base - base, r.size)
      requires TidiedOn(m, path, r.base, r.size)
      requires Rooted(mmu.g, m, path, up) && Neat(mmu.g, m, path)
      modifies mmu.pmm
      ensures Valid() && mmu.pmm.pages == old(mmu.pmm.pages)
      ensures RemovesExactly(mmu.g, m, mmu.mem, mmu.g.root, mmu.g.Top(), r.base - base, r.size)
      ensures mmu.Pages() == old(mmu.Pages()) + Elems(r.pages) && Elems(r.pages) <= mmu.pmm.free
    {
      AfterRemove(mmu.g, m, mmu.mem, rs, regions, lo, asize, base, k, Held());
      TidyNeat(m, path, up, r.base, r.size);
      GiveBack(r.pages);
      assert Held() == old(Held()) - Elems(r.pages);
    }

    /** Freeing what vmm_alloc returned puts back the region list, every translation and every page. */
    method AllocThenFree(bytes: nat, ptr: Option<nat>, specific: bool, alignPow2: nat, attrs: nat, heapOk: bool)
      requires Valid() && bytes < WORD && alignPow2 < 64 && (ptr.Some? ==> ptr.value < WORD)
      modifies this, mmu, mmu.pmm
      ensures Valid() && regions == old(regions) && mmu.mem == old(mmu.mem) && mmu.pmm.free == old(mmu.pmm.free)
    {
      ghost var path, up := mmu.path, mmu.up;
      var st, addr, k, list := Alloc(bytes, ptr, specific, alignPow2, attrs, heapOk);
      if st != NoError {
        return;
      }
      FreeNew(addr, k, list, attrs, old(regions), old(mmu.mem), path, up);
      SameFree(mmu.mem.Keys, mmu.pmm.free, old(mmu.pmm.free));
    }

    /** Free the region just allocated. */
    method FreeNew(addr: nat, ghost k: nat, ghost list: seq<nat>, ghost attrs: nat, ghost rs: seq<Region>,
                   ghost m0: Memory, ghost path0: Paths, ghost up0: Parents)
      requires Valid() && Rooted(mmu.g, m0, path0, up0) && base <= addr
      requires k <= |rs| && Allocated(rs, regions, k, addr, list) && AddedOn(m0, path0, addr, |list| * PAGE_SIZE)
      requires PagesMapped(mmu.g, m0, mmu.mem, addr - base, list, |list|, attrs) && Neat(mmu.g, m0, path0)
      modifies this, mmu, mmu.pmm
      ensures Valid() && regions == rs && mmu.Pages() == old(mmu.Pages()) + Elems(list)
      ensures mmu.mem == m0
    {
      ghost var m, path, up := mmu.mem, mmu.path, mmu.up;
      assert k < |regions| && regions[k].Has(addr) by {
        NewHolder(rs, regions, lo, asize, k, addr, list);
      }
      var st, k' := FreeRegion(addr);
      FreedNew(rs, old(regions), regions, lo, asize, k, k', addr, list);
      RemovedRestores(mmu.g, m0, m, mmu.mem, addr - base, list, attrs);
      AsBefore(m0, path0, up0, m, path, up, addr, |list| * PAGE_SIZE);
    }

    /** vmm_alloc_contiguous.  On success the new region maps one run of pages, the lowest aligned one there is.  On
        failure everything is as before, but for sizes of 2^32 pages and more: then the run found for the truncated
        count is lost.  `astray` says that the page search left its arena; nothing is said about what follows.
        Where the region is placed, `addr` is what the caller's pointer is set to, before the mapping and whatever comes
        of it. */
    method AllocContiguous(bytes: nat, ptr: Option<nat>, specific: bool, alignPow2: nat, attrs: nat, heapOk: bool)
      returns (st: Status, addr: nat, astray: bool, ghost k: nat, ghost pa: nat, ghost list: seq<nat>)
      requires Valid() && bytes < WORD && alignPow2 < 64 && (ptr.Some? ==> ptr.value < WORD)
      modifies this, mmu, mmu.pmm
      ensures Valid() && mmu.pmm.pages == old(mmu.pmm.pages)
      ensures st != NoError ==> && regions == old(regions) && mmu.mem == old(mmu.mem)
                                && mmu.pmm.free == old(mmu.pmm.free) - Lost(RoundUp(bytes, PAGE_SIZE), list)
      ensures astray ==> GoneAstray(old(mmu.pmm.arenas), RoundUp(bytes, PAGE_SIZE), alignPow2) && list == []
      ensures st == NoError ==>
                && k <= |old(regions)| && Allocated(old(regions), regions, k, addr, list)
                && |list| * PAGE_SIZE == RoundUp(bytes, PAGE_SIZE) && base <= addr
                && list == Run(pa, |list|) && IsLowestRun(old(mmu.pmm.arenas), |list|, alignPow2, pa)
                && mmu.Pages() == old(mmu.Pages()) - Elems(list) && Elems(list) <= old(mmu.Pages())
                && PagesMapped(mmu.g, old(mmu.mem), mmu.mem, addr - base, list, |list|, attrs)
                && AddedOn(old(mmu.mem), old(mmu.path), addr, |list| * PAGE_SIZE)
      ensures var size := RoundUp(bytes, PAGE_SIZE);
              var vaddr := if specific && ptr.Some? then ptr.value else 0;
              if Wrap(size) == 0 || (specific && ptr.None?) then st == ErrInvalidArgs
              else if astray || NoRunFor(old(mmu.pmm.arenas), size, alignPow2) || !heapOk
                      || NoPlaceFor(old(regions), size, vaddr, specific, alignPow2) then st == ErrNoMemory
              else && |list| * PAGE_SIZE == size && PlacedAt(old(regions), size, addr, vaddr, specific, alignPow2)
                   && st == RunStatus(old(mmu.mem), Card(old(mmu.pmm.free)) - |list|, addr, pa, |list|)
      ensures var size := RoundUp(bytes, PAGE_SIZE);
              !astray && Wrap(size) != 0 && size / PAGE_SIZE >= UINT && !(specific && ptr.None?) ==>
                (list == [] <==> NoShortRun(old(mmu.pmm.arenas), size, alignPow2))
      ensures list != [] ==>
                |list| == ShortCount(RoundUp(bytes, PAGE_SIZE)) && NoDup(list) && Elems(list) <= old(mmu.pmm.free)
    {
      var size := Wrap(RoundUp(bytes, PAGE_SIZE));
      addr, astray, k, pa, list := 0, false, 0, 0, [];
      if size == 0 || (specific && ptr.None?) {
        return ErrInvalidArgs, addr, astray, k, pa, list;
      }
      RoundUpPages(bytes);
      assert size == RoundUp(bytes, PAGE_SIZE);
      st, addr, astray, k, pa, list :=
        AllocRunAt(size, if specific then ptr.value else 0, specific, alignPow2, attrs, heapOk);
    }

    ghost predicate IsLowestRun(arenas: seq<Arena>, count: nat, alignPow2: nat, pa: nat) {
      exists k, s: nat :: LowestRun(arenas, k, s, count, RunAlign(alignPow2), pa)
    }

    /** There is no run for the truncated count. */
    ghost predicate NoShortRun(arenas: seq<Arena>, size: nat, alignPow2: nat) {
      ShortCount(size) == 0 || NoRun(arenas, ShortCount(size), RunAlign(alignPow2))
    }

    /** The search comes up short: there is no run, or the count is truncated. */
    ghost predicate NoRunFor(arenas: seq<Arena>, size: nat, alignPow2: nat) {
      size / PAGE_SIZE >= UINT || NoShortRun(arenas, size, alignPow2)
    }

    /** The pages that a failed call does not give back. */
    ghost function Lost(size: nat, list: seq<nat>): set<nat> {
      if size / PAGE_SIZE >= UINT then Elems(list) else {}
    }

    ghost predicate GoneAstray(arenas: seq<Arena>, size: nat, alignPow2: nat) {
      exists k: nat :: AstrayAt(arenas, k, ShortCount(size), RunAlign(alignPow2))
    }

    /** vmm_alloc_contiguous after its argument checks. */
    method AllocRunAt(size: nat, vaddr: nat, specific: bool, alignPow2: nat, attrs: nat, heapOk: bool)
      returns (st: Status, addr: nat, astray: bool, ghost k: nat, ghost pa: nat, ghost list: seq<nat>)
      requires Valid() && 0 < size < WORD && size % PAGE_SIZE == 0 && alignPow2 < 64 && vaddr < WORD
      modifies this, mmu, mmu.pmm
      ensures Valid() && mmu.pmm.pages == old(mmu.pmm.pages)
      ensures st != NoError ==> && regions == old(regions) && mmu.mem == old(mmu.mem)
                                && mmu.pmm.free == old(mmu.pmm.free) - Lost(size, list)
      ensures astray ==> GoneAstray(old(mmu.pmm.arenas), size, alignPow2) && list == []
      ensures st == NoError ==>
                && k <= |old(regions)| && Allocated(old(regions), regions, k, addr, list)
                && |list| * PAGE_SIZE == size && base <= addr
                && list == Run(pa, |list|) && IsLowestRun(old(mmu.pmm.arenas), |list|, alignPow2, pa)
                && mmu.Pages() == old(mmu.Pages()) - Elems(list) && Elems(list) <= old(mmu.Pages())
                && PagesMapped(mmu.g, old(mmu.mem), mmu.mem, addr - base, list, |list|, attrs)
                && AddedOn(old(mmu.mem), old(mmu.path), addr, |list| * PAGE_SIZE)
      ensures if astray || NoRunFor(old(mmu.pmm.arenas), size, alignPow2) || !heapOk
                 || NoPlaceFor(old(regions), size, vaddr, specific, alignPow2) then st == ErrNoMemory
              else && |list| * PAGE_SIZE == size && PlacedAt(old(regions), size, addr, vaddr, specific, alignPow2)
                   && st == RunStatus(old(mmu.mem), Card(old(mmu.pmm.free)) - |list|, addr, pa, |list|)
      ensures !astray && size / PAGE_SIZE >= UINT ==>
                (list == [] <==> NoShortRun(old(mmu.pmm.arenas), size, alignPow2))
      ensures list != [] ==> |list| == ShortCount(size) && NoDup(list) && Elems(list) <= old(mmu.pmm.free)
    {
      var n, at, pages, lost := TakeRun(size, alignPow2);
      addr, k, pa, list, astray := vaddr, 0, at, pages, lost;
      if n < size / PAGE_SIZE {
        return ErrNoMemory, addr, astray, k, pa, list;
      } else {
        assert !astray && Lost(size, list) == {};
        st, addr, k := PlaceRun(at, pages, size, vaddr, specific, alignPow2, attrs, heapOk, old(mmu.pmm.free));
        return;
      }
    }

    /** pmm_alloc_contiguous, for pages that are to go on a region's list: enough of them, or what is lost if there are
        too few. */
    method TakeRun(size: nat, alignPow2: nat) returns (n: nat, pa: nat, pages: seq<nat>, astray: bool)
      requires Valid() && size > 0 && size % PAGE_SIZE == 0
      modifies mmu.pmm
      ensures Valid() && DataPages(pages) && mmu.pmm.pages == old(mmu.pmm.pages)
      ensures PagesHeld(regions, Held() - Elems(pages))
      ensures mmu.Pages() == old(mmu.Pages()) - Elems(pages) && Elems(pages) <= old(mmu.Pages())
      ensures mmu.pmm.free == old(mmu.pmm.free) - Elems(pages) && Elems(pages) <= old(mmu.pmm.free)
      ensures Card(mmu.pmm.free) == Card(old(mmu.pmm.free)) - |pages|
      ensures astray ==> pages == [] && GoneAstray(old(mmu.pmm.arenas), size, alignPow2)
      ensures n < size / PAGE_SIZE <==> astray || NoRunFor(old(mmu.pmm.arenas), size, alignPow2)
      ensures if n < size / PAGE_SIZE then Elems(pages) == Lost(size, pages)
              else && !astray && pages != [] && |pages| * PAGE_SIZE == size && Lost(size, pages) == {}
                   && pages == Run(pa, |pages|) && IsLowestRun(old(mmu.pmm.arenas), |pages|, alignPow2, pa)
      ensures !astray ==> (pages == [] <==> NoShortRun(old(mmu.pmm.arenas), size, alignPow2))
      ensures pages != [] ==> |pages| == ShortCount(size)
    {
      n, pa, pages, astray := TakeShort(ShortCount(size), alignPow2);
      WholeCount(size, n);
    }

    method TakeShort(count: nat, alignPow2: nat) returns (n: nat, pa: nat, pages: seq<nat>, astray: bool)
      requires Valid() && count < UINT
      modifies mmu.pmm
      ensures Valid() && DataPages(pages) && mmu.pmm.pages == old(mmu.pmm.pages)
      ensures PagesHeld(regions, Held() - Elems(pages))
      ensures mmu.Pages() == old(mmu.Pages()) - Elems(pages) && Elems(pages) <= old(mmu.Pages())
      ensures mmu.pmm.free == old(mmu.pmm.free) - Elems(pages) && Elems(pages) <= old(mmu.pmm.free)
      ensures Card(mmu.pmm.free) == Card(old(mmu.pmm.free)) - |pages|
      ensures astray ==> && pages == [] && count > 0
                         && exists k: nat :: AstrayAt(old(mmu.pmm.arenas), k, count, RunAlign(alignPow2))
      ensures !astray ==> (pages == [] <==> count == 0 || NoRun(old(mmu.pmm.arenas), count, RunAlign(alignPow2)))
      ensures n == |pages| && (n == 0 || n == count)
      ensures n > 0 ==> pages == Run(pa, count) && IsLowestRun(old(mmu.pmm.arenas), count, alignPow2, pa)
    {
      mmu.pmm.FreeArePages();
      n, pa, pages, astray := mmu.pmm.AllocContiguous(count, alignPow2);
      RunNoDup(pa, count);
      TakenPages(mmu.pmm.free, old(mmu.pmm.free), mmu.mem.Keys, pages);
      TakenCount(mmu.pmm.free, old(mmu.pmm.free), pages);
      assert Held() - Elems(pages) == old(Held());
      HeldWider(regions, old(Held()), Held());
    }

    /** vmm_alloc_contiguous once it has its pages. */
    method PlaceRun(pa: nat, list: seq<nat>, size: nat, vaddr: nat, specific: bool, alignPow2: nat, attrs: nat,
                    heapOk: bool, ghost free0: set<nat>)
      returns (st: Status, addr: nat, ghost k: nat)
      requires Layout() && mmu.Valid() && DataPages(list) && list != [] && list == Run(pa, |list|)
      requires size == |list| * PAGE_SIZE < WORD && vaddr < WORD && alignPow2 < 64
      requires Listed(regions, lo, asize) && Covered(mmu.g, mmu.mem, regions, base) && Neat(mmu.g, mmu.mem, mmu.path)
      requires OnPages(regions) && PagesHeld(regions, Held() - Elems(list)) && TakenFrom(free0, list)
      modifies this, mmu, mmu.pmm
      ensures Valid() && mmu.pmm.pages == old(mmu.pmm.pages)
      ensures st != NoError ==> regions == old(regions) && mmu.mem == old(mmu.mem) && mmu.pmm.free == free0
      ensures st == NoError ==>
                && k <= |old(regions)| && Allocated(old(regions), regions, k, addr, list) && base <= addr
                && mmu.Pages() == old(mmu.Pages())
                && PagesMapped(mmu.g, old(mmu.mem), mmu.mem, addr - base, list, |list|, attrs)
                && AddedOn(old(mmu.mem), old(mmu.path), addr, |list| * PAGE_SIZE)
      ensures if !heapOk || NoPlaceFor(old(regions), size, vaddr, specific, alignPow2) then st == ErrNoMemory
              else && PlacedAt(old(regions), size, addr, vaddr, specific, alignPow2)
                   && st == RunStatus(old(mmu.mem), Card(free0) - |list|, addr, pa, |list|)
    {
      var at := AllocRegion(size, vaddr, specific, alignPow2, heapOk);
      addr, k := vaddr, 0;
      if at.None? {
        Decline(list);
        return ErrNoMemory, addr, k;
      }
      k, addr := at.value, regions[at.value].base;
      st := FillRun(at.value, pa, list, attrs, old(regions));
    }

    /** Map the run into the region at `k` in one call, or take the region out again and give the pages back. */
    method FillRun(k: nat, pa: nat, list: seq<nat>, attrs: nat, ghost rs: seq<Region>) returns (st: Status)
      requires Layout() && mmu.Valid() && DataPages(list) && list != [] && list == Run(pa, |list|)
      requires k <= |rs| && k < |regions| && regions == Insert(rs, k, Region(regions[k].base, |list| * PAGE_SIZE, []))
      requires Listed(rs, lo, asize) && Listed(regions, lo, asize) && Clear(rs, regions[k].base, |list| * PAGE_SIZE)
      requires Covered(mmu.g, mmu.mem, rs, base) && OnPages(rs) && PagesHeld(rs, Held() - Elems(list))
      requires Neat(mmu.g, mmu.mem, mmu.path)
      modifies this, mmu, mmu.pmm
      ensures Valid() && mmu.pmm.pages == old(mmu.pmm.pages)
      ensures st != NoError ==> && regions == rs && mmu.mem == old(mmu.mem) && mmu.path == old(mmu.path)
                                && mmu.pmm.free == old(mmu.pmm.free) + Elems(list)
      ensures st == RunStatus(old(mmu.mem), Card(old(mmu.pmm.free)), old(regions)[k].base, pa, |list|)
      ensures st == NoError ==>
                && Allocated(rs, regions, k, old(regions)[k].base, list) && base <= old(regions)[k].base
                && Mod(old(regions)[k].base, PAGE_SIZE) == 0
                && mmu.Pages() == old(mmu.Pages())
                && PagesMapped(mmu.g, old(mmu.mem), mmu.mem, old(regions)[k].base - base, list, |list|, attrs)
                && AddedOn(old(mmu.mem), old(mmu.path), old(regions)[k].base, |list| * PAGE_SIZE)
    {
      var addr, size := regions[k].base, regions[k].size;
      ghost var path, up := mmu.path, mmu.up;
      CoveredClear(mmu.g, mmu.mem, rs, base, addr, size);
      DataAligned(list);
      assert list[0] == pa;
      st := ArchMap(addr, pa, |list|, attrs);
      if st != NoError {
        RunStopped(st, old(mmu.mem), path, up, Card(old(mmu.pmm.free)), addr, pa, list);
        UndoRun(k, list, attrs, rs, old(mmu.mem), path, up);
        SameFree(mmu.mem.Keys, mmu.pmm.free, old(mmu.pmm.free) + Elems(list));
        assert Held() == old(Held()) - Elems(list);
        return;
      }
      RunMapped(mmu.g, old(mmu.mem), mmu.mem, addr - base, pa, list, attrs);
      RegionUpdate(rs, lo, asize, k, addr, size, list);
      regions := regions[k := Region(addr, size, list)];
      assert Held() == old(Held());
      FilledValid(k, addr, list, attrs, rs, old(mmu.mem), path, up);
      return;
    }

    /** The error exit of vmm_alloc_contiguous after a mapping that failed. */
    method UndoRun(k: nat, list: seq<nat>, ghost attrs: nat, ghost rs: seq<Region>, ghost m0: Memory,
                   ghost path0: Paths, ghost up0: Parents)
      requires Layout() && mmu.Valid() && DataPages(list) && list != []
      requires k <= |rs| && k < |regions| && regions == Insert(rs, k, regions[k]) && Listed(regions, lo, asize)
      requires regions[k].size == |list| * PAGE_SIZE
      requires SameWalk(mmu.g, m0, mmu.mem, mmu.g.root, mmu.g.Top())
      requires NoneMeets(mmu.g, m0, regions[k].base - base, regions[k].size)
      requires Rooted(mmu.g, m0, path0, up0) && lo <= regions[k].base
      requires AddedOn(m0, path0, regions[k].base, regions[k].size)
      requires Neat(mmu.g, m0, path0)
      requires Mod(regions[k].base, PAGE_SIZE) != 0 ==> mmu.mem == m0 && mmu.path == path0
      modifies this, mmu, mmu.pmm
      ensures mmu.Valid() && mmu.pmm.pages == old(mmu.pmm.pages)
      ensures mmu.Pages() == old(mmu.Pages()) + Elems(list) && Elems(list) <= mmu.pmm.free
      ensures regions == rs && mmu.mem == m0 && mmu.path == path0
    {
      NoneMapped(mmu.g, m0, mmu.mem, regions[k].base - base, list, attrs);
      TakeOut(k, list, 0, attrs, rs, m0, path0, up0);
      GiveBack(list);
    }

    /** The status of mapping `count` pages from `pa` on at a vacant address in one call, with `free` pages left. */
    ghost function RunStatus(m: Memory, free: int, addr: nat, pa: nat, count: nat): Status
      requires mmu.g.Valid() && base <= addr
    {
      if Mod(addr, PAGE_SIZE) != 0 then ErrInvalidArgs
      else if free < Lack(mmu.g, m, mmu.g.root, mmu.g.Top(), addr - base, pa, count * PAGE_SIZE) then ErrGeneric
      else NoError
    }

    lemma RunStopped(st: Status, m: Memory, path: Paths, up: Parents, free: nat, addr: nat, pa: nat, list: seq<nat>)
      requires Layout() && lo <= addr && addr + |list| * PAGE_SIZE <= lo + asize && list != []
      requires Rooted(mmu.g, m, path, up) && Neat(mmu.g, m, path)
      requires NoneMeets(mmu.g, m, addr - base, |list| * PAGE_SIZE) && Mod(pa, PAGE_SIZE) == 0
      requires Mod(addr, PAGE_SIZE) != 0 ==> st == ErrInvalidArgs
      requires Mappable(addr, pa, |list|) ==>
                 && st == ErrGeneric
                 && Blocked(mmu.g, m, free, mmu.g.root, mmu.g.Top(), addr - base, pa, |list| * PAGE_SIZE)
      ensures st == RunStatus(m, free, addr, pa, |list|)
    {
      NoneHit(mmu.g, m, addr - base, |list| * PAGE_SIZE);
      assert TreeFrom(mmu.g, m, path, up, mmu.g.root);
      if InWay(mmu.g, m, mmu.g.root, mmu.g.Top(), addr - base, pa, |list| * PAGE_SIZE) {
        InWayHits(mmu.g, m, path, up, mmu.g.root, mmu.g.Top(), addr - base, pa, |list| * PAGE_SIZE);
      }
    }

    /** Freeing what vmm_alloc_contiguous returned puts everything back, tables and free pages included. */
    method AllocContiguousThenFree(bytes: nat, ptr: Option<nat>, specific: bool, alignPow2: nat, attrs: nat,
                                   heapOk: bool)
      requires Valid() && bytes < WORD && alignPow2 < 64 && (ptr.Some? ==> ptr.value < WORD)
      modifies this, mmu, mmu.pmm
      ensures Valid() && regions == old(regions) && mmu.mem == old(mmu.mem)
      ensures RoundUp(bytes, PAGE_SIZE) / PAGE_SIZE < UINT ==> mmu.pmm.free == old(mmu.pmm.free)
    {
      ghost var path, up := mmu.path, mmu.up;
      var st, addr, astray, k, pa, list := AllocContiguous(bytes, ptr, specific, alignPow2, attrs, heapOk);
      if st != NoError {
        return;
      }
      FreeNew(addr, k, list, attrs, old(regions), old(mmu.mem), path, up);
      SameFree(mmu.mem.Keys, mmu.pmm.free, old(mmu.pmm.free));
    }

    lemma LeakSize(arenas: seq<Arena>)
      requires AllInReach(arenas, 1, PAGE_SIZE)
      ensures var size := (UINT + 1) * PAGE_SIZE;
              && RoundUp(size, PAGE_SIZE) == size && Wrap(size) == size
              && size / PAGE_SIZE >= UINT && ShortCount(size) == 1
              && RunAlign(PAGE_SIZE_SHIFT) == PAGE_SIZE && !GoneAstray(arenas, size, PAGE_SIZE_SHIFT)
    {
      var size := (UINT + 1) * PAGE_SIZE;
      DivMod(size, PAGE_SIZE);
      assert Pow2(12) == 4096;
    }

    /** A request for 2^32 + 1 pages where a page is free takes one page, fails and does not give it back. */
    method LeakExample(ghost arenas: seq<Arena>) returns (st: Status)
      requires Valid() && arenas == mmu.pmm.arenas && !NoRun(arenas, 1, PAGE_SIZE) && AllInReach(arenas, 1, PAGE_SIZE)
      modifies this, mmu, mmu.pmm
      ensures Valid() && st == ErrNoMemory && regions == old(regions)
      ensures Card(mmu.pmm.free) + 1 == Card(old(mmu.pmm.free))
    {
      LeakSize(arenas);
      var status, addr, astray, k, pa, list :=
        AllocContiguous((UINT + 1) * PAGE_SIZE, None, false, PAGE_SIZE_SHIFT, 0, true);
      assert !astray && list != [];
      assert Elems(list) == {list[0]};
      CardDrop(old(mmu.pmm.free), list[0]);
      return status;
    }
  }
}
