/** Mapping and unmapping on ARM64 translation tables (arch/arm64/mmu.c), with table pages
    taken from and returned to the physical page allocator. */
module Mmu {
  import opened Arith
  import opened MmuTree
  import opened MmuTidy
  import opened MmuCount
  import opened MmuBlocks
  import Pmm

  datatype Status = NoError | ErrInvalidArgs | ErrGeneric | ErrNotFound | ErrOutOfRange | ErrNoMemory

  lemma KeptNext(m0: Memory, path0: Paths, m: Memory, path: Paths, m': Memory, path': Paths, t: nat, i: nat)
    requires m0.Keys == path0.Keys && m.Keys == path.Keys && m'.Keys == path'.Keys && t in m0
    requires KeptOutside(m0, path0, m, path, t) && KeptOutsideEntry(m, path, m', path', t, i)
    ensures KeptOutside(m0, path0, m', path', t)
  {
    forall s | s in m0 && !Under(path0, t, s) ensures s in m' && m'[s] == m0[s] && path'[s] == path0[s] {
      assert path[t] <= path[t] + [i];
      assert s in m && path[s] == path0[s];
    }
  }

  /** Leaves meeting `[v, v + size)` are gone and every other address walks as before. */
  ghost predicate Unmaps(g: Geometry, m: Memory, m': Memory, t: nat, level: nat, v: nat, size: nat)
    requires g.Valid() && level < |g.block|
  {
    forall rel: nat :: Walk(g, m', t, level, rel) == Cleared(Walk(g, m, t, level, rel), rel, v, size)
  }

  /** The same, for the part `[rem, rem + chunk)` of what entry `i` of `t` covers. */
  ghost predicate UnmapsEntry(g: Geometry, m: Memory, m': Memory, t: nat, level: nat, i: nat, rem: nat, chunk: nat)
    requires g.Valid() && level < |g.block|
  {
    forall rel: nat :: Walk(g, m', t, level, rel) ==
                       if Div(rel, g.block[level]) == i
                       then Cleared(Walk(g, m, t, level, rel), Mod(rel, g.block[level]), rem, chunk)
                       else Walk(g, m, t, level, rel)
  }

  ghost predicate SameWalk(g: Geometry, m: Memory, m': Memory, t: nat, level: nat)
    requires g.Valid() && level < |g.block|
  {
    forall rel: nat :: Walk(g, m', t, level, rel) == Walk(g, m, t, level, rel)
  }

  /** Clearing `[v, v + n)` and then the next `chunk` bytes, which lie in one block, clears both. */
  lemma ClearedNext(g: Geometry, m: Memory, t: nat, level: nat, rel: nat, v: nat, n: nat, chunk: nat)
    requires g.Valid() && level < |g.block|
    requires 0 < chunk <= g.block[level] - Mod(v + n, g.block[level])
    ensures var x, b := Walk(g, m, t, level, rel), g.block[level];
            var y := Cleared(x, rel, v, n);
            Cleared(x, rel, v, n + chunk)
            == if Div(rel, b) == Div(v + n, b) then Cleared(y, Mod(rel, b), Mod(v + n, b), chunk) else y
  {
    var b := g.block[level];
    WalkInBlock(g, m, t, level, rel);
    BlockOrder(rel, v + n, b);
    BlockOrder(v + n, rel, b);
  }

  lemma UnmapsNext(g: Geometry, m0: Memory, m: Memory, m': Memory, t: nat, level: nat, v: nat, n: nat, chunk: nat)
    requires g.Valid() && level < |g.block|
    requires 0 < chunk <= g.block[level] - Mod(v + n, g.block[level])
    requires Unmaps(g, m0, m, t, level, v, n)
    requires UnmapsEntry(g, m, m', t, level, Div(v + n, g.block[level]), Mod(v + n, g.block[level]), chunk)
    ensures Unmaps(g, m0, m', t, level, v, n + chunk)
  {
    forall rel: nat
      ensures Walk(g, m', t, level, rel) == Cleared(Walk(g, m0, t, level, rel), rel, v, n + chunk)
    {
      ClearedNext(g, m0, t, level, rel, v, n, chunk);
    }
  }

  /** Overwriting entry `i` of `t` with an empty one when it is a leaf. */
  lemma ClearLeaf(g: Geometry, m: Memory, path: Paths, up: Parents, t: nat, level: nat, i: nat, rem: nat, chunk: nat)
    requires g.Valid() && Tree(g, m, path, up) && t in m && level == g.Top() - |path[t]|
    requires i < |m[t]| && m[t][i].Leaf? && 0 < chunk && rem + chunk <= g.block[level]
    ensures UnmapsEntry(g, m, m[t := m[t][i := Invalid]], t, level, i, rem, chunk)
  {
    var m' := m[t := m[t][i := Invalid]];
    forall rel: nat | Div(rel, g.block[level]) != i
      ensures Walk(g, m', t, level, rel) == Walk(g, m, t, level, rel)
    {
      OtherEntries(g, m, path, up, m', t, level, i, rel);
    }
  }

  /** What a change under entry `i` of `t` does to the walk from `t`, from what it does below. */
  lemma EntryWalk(g: Geometry, m: Memory, path: Paths, up: Parents, m': Memory, t: nat, level: nat, i: nat, c: nat,
                  rel: nat)
    requires g.Valid() && Tree(g, m, path, up) && t in m && level == g.Top() - |path[t]| && level > 0
    requires i < |m[t]| && m[t][i] == Table(c)
    requires t in m' && m'[t] == m[t]
    requires forall s :: s in m && s != t && !(path[t] + [i] <= path[s]) ==> s in m' && m'[s] == m[s]
    ensures Walk(g, m', t, level, rel)
         == if Div(rel, g.block[level]) == i then Walk(g, m', c, level - 1, Mod(rel, g.block[level]))
            else Walk(g, m, t, level, rel)
  {
    if Div(rel, g.block[level]) != i {
      OtherEntries(g, m, path, up, m', t, level, i, rel);
    }
  }

  /** Dropping a link to a table without entries changes no walk. */
  lemma DropClear(g: Geometry, m: Memory, path: Paths, up: Parents, t: nat, level: nat, i: nat)
    requires g.Valid() && Tree(g, m, path, up) && t in m && level == g.Top() - |path[t]|
    requires i < |m[t]| && m[t][i].Table? && m[t][i].next in m && m[t][i].next != t
    requires forall j :: 0 <= j < |m[m[t][i].next]| ==> m[m[t][i].next][j].Invalid?
    ensures SameWalk(g, m, m[t := m[t][i := Invalid]] - {m[t][i].next}, t, level)
  {
    var c := m[t][i].next;
    var m' := m[t := m[t][i := Invalid]] - {c};
    assert Child(g, m, path, up, t, i);
    forall rel: nat ensures Walk(g, m', t, level, rel) == Walk(g, m, t, level, rel) {
      if Div(rel, g.block[level]) != i {
        OtherEntries(g, m, path, up, m', t, level, i, rel);
      }
    }
  }

  lemma KeptChild(m: Memory, path: Paths, m': Memory, path': Paths, t: nat, i: nat, c: nat)
    requires m.Keys == path.Keys && m'.Keys == path'.Keys && t in m && c in m && path[c] == path[t] + [i]
    requires KeptOutside(m, path, m', path', c)
    ensures KeptOutsideEntry(m, path, m', path', t, i) && m'[t] == m[t]
  {
    assert !Under(path, c, t);
  }

  lemma KeptDrop(m0: Memory, path0: Paths, m: Memory, path: Paths, t: nat, i: nat, c: nat)
    requires m0.Keys == path0.Keys && m.Keys == path.Keys && t in m0 && c in m && c != t && i < |m0[t]|
    requires KeptOutsideEntry(m0, path0, m, path, t, i) && path[t] + [i] == path[c]
    ensures KeptOutsideEntry(m0, path0, m[t := m[t][i := Invalid]] - {c}, path - {c}, t, i)
  {
  }

  lemma UnmapsBelow(g: Geometry, m: Memory, path: Paths, up: Parents, m': Memory, path': Paths, t: nat, level: nat,
                    i: nat, c: nat, rem: nat, chunk: nat)
    requires g.Valid() && Tree(g, m, path, up) && t in m && level == g.Top() - |path[t]| && level > 0
    requires i < |m[t]| && m[t][i] == Table(c) && c in m && path[c] == path[t] + [i]
    requires m'.Keys == path'.Keys && KeptOutside(m, path, m', path', c)
    requires Unmaps(g, m, m', c, level - 1, rem, chunk)
    ensures UnmapsEntry(g, m, m', t, level, i, rem, chunk)
  {
    KeptChild(m, path, m', path', t, i, c);
    forall rel: nat ensures Walk(g, m', t, level, rel) ==
                            if Div(rel, g.block[level]) == i
                            then Cleared(Walk(g, m, t, level, rel), Mod(rel, g.block[level]), rem, chunk)
                            else Walk(g, m, t, level, rel)
    {
      EntryWalk(g, m, path, up, m', t, level, i, c, rel);
    }
  }

  /** A leaf that carries `rel` to where `[v, v + size) -> pa` sends it, inside that range. */
  ghost predicate Mapped(x: Xlat, rel: nat, v: nat, pa: nat, size: nat, attrs: nat) {
    && x.Hit? && x.attrs == attrs && x.pa + x.off + v == pa + rel
    && v + x.off <= rel && rel + x.size <= v + size + x.off
  }

  /** `[v, v + size)` was unmapped and now goes to `pa` on; every other address walks as before. */
  ghost predicate Maps(g: Geometry, m: Memory, m': Memory, t: nat, level: nat, v: nat, pa: nat, size: nat, attrs: nat)
    requires g.Valid() && level < |g.block|
  {
    forall rel: nat :: if v <= rel < v + size
                       then Walk(g, m, t, level, rel) == Fault
                            && Mapped(Walk(g, m', t, level, rel), rel, v, pa, size, attrs)
                       else Walk(g, m', t, level, rel) == Walk(g, m, t, level, rel)
  }

  /** The same, for the part `[rem, rem + chunk)` of what entry `i` of `t` covers. */
  ghost predicate MapsEntry(g: Geometry, m: Memory, m': Memory, t: nat, level: nat, i: nat, rem: nat, pa: nat,
                            chunk: nat, attrs: nat)
    requires g.Valid() && level < |g.block|
  {
    forall rel: nat :: if Div(rel, g.block[level]) == i && rem <= Mod(rel, g.block[level]) < rem + chunk
                       then Walk(g, m, t, level, rel) == Fault
                            && Mapped(Walk(g, m', t, level, rel), Mod(rel, g.block[level]), rem, pa, chunk, attrs)
                       else Walk(g, m', t, level, rel) == Walk(g, m, t, level, rel)
  }

  lemma MapsNext(g: Geometry, m0: Memory, m: Memory, m': Memory, t: nat, level: nat, v: nat, pa: nat, n: nat, n': nat,
                 i: nat, rem: nat, chunk: nat, attrs: nat)
    requires g.Valid() && level < |g.block|
    requires i == Div(v + n, g.block[level]) && rem == Mod(v + n, g.block[level])
    requires 0 < chunk <= g.block[level] - rem && n' == n + chunk
    requires Maps(g, m0, m, t, level, v, pa, n, attrs)
    requires MapsEntry(g, m, m', t, level, i, rem, pa + n, chunk, attrs)
    ensures Maps(g, m0, m', t, level, v, pa, n', attrs)
  {
    var b := g.block[level];
    forall rel: nat
      ensures if v <= rel < v + n'
              then Walk(g, m0, t, level, rel) == Fault
                   && Mapped(Walk(g, m', t, level, rel), rel, v, pa, n', attrs)
              else Walk(g, m', t, level, rel) == Walk(g, m0, t, level, rel)
    {
      if v + n <= rel < v + n + chunk {
        DivShift(v + n, rel, b);
      } else {
        BlockOrder(rel, v + n, b);
      }
    }
  }

  /** Unmapping what was just mapped brings every walk back. */
  lemma RollbackRestores(g: Geometry, m0: Memory, m: Memory, m': Memory, t: nat, level: nat, v: nat, pa: nat, n: nat,
                         attrs: nat)
    requires g.Valid() && level < |g.block|
    requires Maps(g, m0, m, t, level, v, pa, n, attrs) && Unmaps(g, m, m', t, level, v, n)
    ensures SameWalk(g, m0, m', t, level)
  {
    forall rel: nat ensures Walk(g, m', t, level, rel) == Walk(g, m0, t, level, rel) {
      var x := Walk(g, m, t, level, rel);
      if !(v <= rel < v + n) && x.Hit? && Meets(x, rel, v, n) {
        WalkInBlock(g, m, t, level, rel);
        var to := if v + x.off < rel then rel - x.off else v;
        WalkSameLeaf(g, m, t, level, rel, to);
        assert false;
      } else if v <= rel < v + n {
        WalkInBlock(g, m, t, level, rel);
      }
    }
  }

  /** Why mapping a part of one entry can fail: part of it is mapped already, fewer pages are free than tables are
      missing, or a table is linked where a whole block would go. */
  ghost predicate EntryBlocked(g: Geometry, m: Memory, free: nat, t: nat, level: nat, i: nat, rem: nat, pa: nat,
                               chunk: nat)
    requires g.Valid() && level < |g.block|
  {
    || (exists rel: nat :: && Div(rel, g.block[level]) == i && rem <= Mod(rel, g.block[level]) < rem + chunk
                           && Walk(g, m, t, level, rel).Hit?)
    || free < LackEntry(g, m, t, level, i, rem, pa, chunk)
    || InWayEntry(g, m, t, level, i, rem, pa, chunk)
  }

  /** Some address of the range is mapped. */
  ghost predicate HitIn(g: Geometry, m: Memory, t: nat, level: nat, v: nat, size: nat)
    requires g.Valid() && level < |g.block|
  {
    exists rel: nat :: v <= rel < v + size && Walk(g, m, t, level, rel).Hit?
  }

  /** Why a mapping fails. */
  ghost predicate Blocked(g: Geometry, m: Memory, free: nat, t: nat, level: nat, v: nat, pa: nat, size: nat)
    requires g.Valid() && level < |g.block|
  {
    || HitIn(g, m, t, level, v, size)
    || free < Lack(g, m, t, level, v, pa, size)
    || InWay(g, m, t, level, v, pa, size)
  }

  /** Block `i` of `b` bytes holds the addresses `b * i + r`. */
  lemma BlockAddr(i: nat, r: nat, b: nat)
    requires r < b
    ensures Div(b * i + r, b) == i && Mod(b * i + r, b) == r
  {
    DivMod(b * i + r, b);
    DivModUnique(b * i + r, b, i, r);
  }

  /** A leaf in the way of part of its entry. */
  lemma LeafBlocks(g: Geometry, m: Memory, free: nat, t: nat, level: nat, i: nat, rem: nat, pa: nat, chunk: nat)
    requires g.Valid() && level < |g.block| && t in m && i < |m[t]| && m[t][i].Leaf?
    requires chunk > 0 && rem + chunk <= g.block[level]
    ensures EntryBlocked(g, m, free, t, level, i, rem, pa, chunk)
  {
    BlockAddr(i, rem, g.block[level]);
    assert Walk(g, m, t, level, g.block[level] * i + rem).Hit?;
  }

  lemma BelowLimit(r: nat, b: nat, count: nat)
    requires b > 0 && Div(r, b) < count
    ensures r < b * count
  {
    DivMod(r, b);
    MulMono(b, Div(r, b) + 1, count);
  }

  /** What blocks the table below an entry blocks the entry. */
  lemma BelowBlocks(g: Geometry, m: Memory, free: nat, t: nat, level: nat, i: nat, c: nat, rem: nat, pa: nat,
                    chunk: nat)
    requires g.Valid() && 0 < level < |g.block| && t in m && i < |m[t]| && m[t][i] == Table(c)
    requires rem + chunk <= g.block[level] && !WholeBlock(g, level, rem, pa, chunk)
    requires Blocked(g, m, free, c, level - 1, rem, pa, chunk)
    ensures EntryBlocked(g, m, free, t, level, i, rem, pa, chunk)
  {
    var b := g.block[level];
    if HitIn(g, m, c, level - 1, rem, chunk) {
      var r: nat :| rem <= r < rem + chunk && Walk(g, m, c, level - 1, r).Hit?;
      BlockAddr(i, r, b);
      assert Walk(g, m, t, level, b * i + r).Hit?;
    }
  }

  /** The first `n` entries are empty. */
  ghost predicate EmptyTo(e: seq<Pte>, n: nat) {
    forall i :: 0 <= i < n && i < |e| ==> e[i].Invalid?
  }

  /** `[v, v + size)` lies in what `count` entries of `b` bytes cover. */
  ghost predicate Fits(v: nat, size: nat, b: nat, count: nat)
    requires b > 0
  {
    size > 0 ==> Div(v + size - 1, b) < count
  }

  /** A part of one entry fits the table below it. */
  lemma FitsBelow(g: Geometry, level: nat, rem: nat, chunk: nat)
    requires g.Valid() && 0 < level < |g.block| && chunk > 0 && rem + chunk <= g.block[level]
    ensures Fits(rem, chunk, g.block[level - 1], g.entries)
    ensures Div(g.block[level], g.block[level - 1]) == g.entries
  {
    assert g.Scaled(level);
    DivBound(rem + chunk - 1, g.block[level - 1], g.entries);
    DivBound(g.block[level], g.block[level - 1], g.entries);
  }

  /** `n` of `size` bytes from `v` end where a chunk ends. */
  ghost predicate AtEdge(v: nat, n: nat, size: nat, b: nat)
    requires b > 0
  {
    n == 0 || n == size || Mod(v + n, b) == 0
  }

  lemma NextChunk(v: nat, n: nat, n': nat, size: nat, b: nat, chunk: nat)
    requires b > 0 && n < size && AtEdge(v, n, size, b) && chunk == Chunk(v + n, size - n, b) && n' == n + chunk
    ensures n < n' <= size && AtEdge(v, n', size, b) && 0 < chunk <= b - Mod(v + n, b)
    ensures v == 0 ==> Div(n', b) == if chunk == b then Div(n, b) + 1 else Div(n, b)
  {
    ChunkStep(v + n, chunk, b);
  }

  /** How far arm64_mmu_unmap_pt is after `n` of `size` bytes from `v`. */
  ghost predicate UnmapDone(g: Geometry, m0: Memory, path0: Paths, m: Memory, path: Paths, t: nat, level: nat, v: nat,
                            n: nat, size: nat)
    requires g.Valid() && level < |g.block| && t in m0 && m0.Keys == path0.Keys && m.Keys == path.Keys
  {
    && KeptOutside(m0, path0, m, path, t)
    && Unmaps(g, m0, m, t, level, v, n)
    && AtEdge(v, n, size, g.block[level])
    && (v == 0 ==> EmptyTo(m[t], Div(n, g.block[level])))
    && Shrinks(m0, path0, m, path) && Tidy(g, m, path, path0[t], level, v, n)
  }

  lemma UnmapNext(g: Geometry, m0: Memory, path0: Paths, m: Memory, path: Paths, up: Parents, m': Memory, path': Paths,
                  t: nat, level: nat, v: nat, n: nat, n': nat, size: nat, i: nat, rem: nat, chunk: nat)
    requires g.Valid() && level < |g.block| && t in m0 && n < size
    requires m0.Keys == path0.Keys && m.Keys == path.Keys && m'.Keys == path'.Keys
    requires UnmapDone(g, m0, path0, m, path, t, level, v, n, size)
    requires i == Div(v + n, g.block[level]) && rem == Mod(v + n, g.block[level])
    requires chunk == Chunk(v + n, size - n, g.block[level]) && n' == n + chunk
    requires i < |m[t]| && KeptOutsideEntry(m, path, m', path', t, i)
    requires UnmapsEntry(g, m, m', t, level, i, rem, chunk)
    requires chunk == g.block[level] ==> m'[t][i].Invalid?
    requires Tree(g, m, path, up) && Shrinks(m, path, m', path')
    requires TidyEntry(g, m', path', path[t] + [i], level, rem, chunk)
    ensures UnmapDone(g, m0, path0, m', path', t, level, v, n', size)
  {
    assert Tidy(g, m', path', path0[t], level, v, n') by {
      TidyNext(g, m, path, up, m', path', t, level, v, n, i, rem, chunk);
    }
    assert Shrinks(m0, path0, m', path') by {
      ShrinksTrans(m0, path0, m, path, m', path');
    }
    assert KeptOutside(m0, path0, m', path', t) by {
      KeptNext(m0, path0, m, path, m', path', t, i);
    }
    assert Unmaps(g, m0, m', t, level, v, n') by {
      UnmapsNext(g, m0, m, m', t, level, v, n, chunk);
    }
    NextChunk(v, n, n', size, g.block[level], chunk);
    assert v == 0 ==> EmptyTo(m'[t], Div(n', g.block[level])) by {
      if v == 0 {
        EmptyNext(m[t], m'[t], i, chunk == g.block[level]);
      }
    }
  }

  /** One more entry is empty, if it was emptied as a whole. */
  lemma EmptyNext(e: seq<Pte>, e': seq<Pte>, i: nat, whole: bool)
    requires |e| == |e'| && i < |e| && EmptyTo(e, i) && forall j :: 0 <= j < |e| && j != i ==> e'[j] == e[j]
    requires whole ==> e'[i].Invalid?
    ensures EmptyTo(e', i) && (whole ==> EmptyTo(e', i + 1))
  {
  }

  /** Entries of `t` from `k` on, and the tables under them, are as they were. */
  ghost predicate UntouchedFrom(m0: Memory, path0: Paths, m: Memory, path: Paths, t: nat, k: nat)
    requires m0.Keys == path0.Keys && m.Keys == path.Keys && t in m0
  {
    && t in m && path[t] == path0[t] && |m[t]| == |m0[t]|
    && (forall j :: k <= j < |m0[t]| ==> m[t][j] == m0[t][j])
    && (forall s :: s in m0 && BeyondEntry(path0[t], path0[s], k) ==> s in m && m[s] == m0[s] && path[s] == path0[s])
  }

  ghost predicate BeyondEntry(p: seq<nat>, q: seq<nat>, k: nat) {
    |p| < |q| && p <= q && q[|p|] >= k
  }

  lemma UntouchedNext(m0: Memory, path0: Paths, m: Memory, path: Paths, m': Memory, path': Paths, t: nat, i: nat)
    requires m0.Keys == path0.Keys && m.Keys == path.Keys && m'.Keys == path'.Keys && t in m0
    requires UntouchedFrom(m0, path0, m, path, t, i) && KeptOutsideEntry(m, path, m', path', t, i)
    ensures UntouchedFrom(m0, path0, m', path', t, i + 1)
  {
    forall s | s in m0 && BeyondEntry(path0[t], path0[s], i + 1)
      ensures s in m' && m'[s] == m0[s] && path'[s] == path0[s]
    {
      assert (path0[t] + [i])[|path0[t]|] == i;
    }
  }

  /** How far arm64_mmu_map_pt is after `n` of `size` bytes. */
  ghost predicate MapDone(g: Geometry, m0: Memory, path0: Paths, m: Memory, path: Paths, t: nat, level: nat, v: nat,
                          pa: nat, n: nat, size: nat, attrs: nat)
    requires g.Valid() && level < |g.block| && t in m0 && m0.Keys == path0.Keys && m.Keys == path.Keys
  {
    && KeptOutside(m0, path0, m, path, t)
    && Maps(g, m0, m, t, level, v, pa, n, attrs)
    && AtEdge(v, n, size, g.block[level]) && Mod(n, g.block[0]) == 0
    && (n < size ==> UntouchedFrom(m0, path0, m, path, t, Div(v + n, g.block[level])))
    && Extends(m0, m) && Grows(g, m0, path0, m, path, path0[t], level, v, size)
    && Placed(g, m, t, level, v, pa, n)
  }

  lemma MapNext(g: Geometry, m0: Memory, path0: Paths, m: Memory, path: Paths, m': Memory, path': Paths, t: nat,
                level: nat, v: nat, pa: nat, n: nat, n': nat, size: nat, attrs: nat, i: nat, rem: nat, chunk: nat)
    requires g.Valid() && level < |g.block| && t in m0 && n < size
    requires m0.Keys == path0.Keys && m.Keys == path.Keys && m'.Keys == path'.Keys
    requires MapDone(g, m0, path0, m, path, t, level, v, pa, n, size, attrs)
    requires i == Div(v + n, g.block[level]) && rem == Mod(v + n, g.block[level])
    requires chunk == Chunk(v + n, size - n, g.block[level]) && n' == n + chunk && Mod(chunk, g.block[0]) == 0
    requires KeptOutsideEntry(m, path, m', path', t, i)
    requires MapsEntry(g, m, m', t, level, i, rem, pa + n, chunk, attrs)
    requires Extends(m, m') && GrowsEntry(g, m, path, m', path', path0[t] + [i], level, rem, chunk)
    requires PlacedEntry(g, m', t, level, i, rem, pa + n, chunk)
    ensures MapDone(g, m0, path0, m', path', t, level, v, pa, n', size, attrs)
  {
    NextMapChunk(v, n, n', size, g.block[level], g.block[0], chunk);
    assert chunk <= g.block[level] - rem && v + n + chunk <= v + size;
    GrowsNext(g, m0, path0, m, path, m', path', path0[t], level, v + n, i, rem, chunk, v, size);
    ExtendsTrans(m0, m, m');
    KeptNext(m0, path0, m, path, m', path', t, i);
    MapsNext(g, m0, m, m', t, level, v, pa, n, n', i, rem, chunk, attrs);
    assert Placed(g, m', t, level, v, pa, n') by {
      EarlierKept(g, m, m', t, level, v + n, i, rem, pa + n, chunk, attrs);
      PlacedNext(g, m, m', t, level, v, pa, n, n', i, rem, chunk);
    }
    if n' < size {
      UntouchedNext(m0, path0, m, path, m', path', t, i);
    }
  }

  /** Mapping the chunk at `x` leaves the addresses before it alone. */
  lemma EarlierKept(g: Geometry, m: Memory, m': Memory, t: nat, level: nat, x: nat, i: nat, rem: nat, pa: nat,
                    chunk: nat, attrs: nat)
    requires g.Valid() && level < |g.block| && i == Div(x, g.block[level]) && rem == Mod(x, g.block[level])
    requires MapsEntry(g, m, m', t, level, i, rem, pa, chunk, attrs)
    ensures forall rel: nat :: rel < x ==> Walk(g, m', t, level, rel) == Walk(g, m, t, level, rel)
  {
    forall rel: nat | rel < x ensures Walk(g, m', t, level, rel) == Walk(g, m, t, level, rel) {
      BlockOrder(rel, x, g.block[level]);
    }
  }

  lemma NextMapChunk(v: nat, n: nat, n': nat, size: nat, b: nat, page: nat, chunk: nat)
    requires b > 0 && page > 0 && n < size && AtEdge(v, n, size, b) && Mod(n, page) == 0
    requires chunk == Chunk(v + n, size - n, b) && n' == n + chunk && Mod(chunk, page) == 0
    ensures 0 < chunk <= b - Mod(v + n, b) && n < n' <= size && AtEdge(v, n', size, b) && Mod(n', page) == 0
    ensures n' < size ==> Div(v + n', b) == Div(v + n, b) + 1
  {
    ModAdd(n, chunk, page);
    ChunkStep(v + n, chunk, b);
  }

  /** Linking a fresh table changes no walk. */
  lemma FreshWalk(g: Geometry, m: Memory, path: Paths, up: Parents, t: nat, level: nat, i: nat, c: nat)
    requires g.Valid() && Tree(g, m, path, up) && t in m && level == g.Top() - |path[t]| && level > 0
    requires i < |m[t]| && m[t][i].Invalid? && c !in m
    ensures SameWalk(g, m, m[c := Fresh(g.entries)][t := m[t][i := Table(c)]], t, level)
  {
    var m': Memory := m[c := Fresh(g.entries)][t := m[t][i := Table(c)]];
    forall rel: nat ensures Walk(g, m', t, level, rel) == Walk(g, m, t, level, rel) {
      if Div(rel, g.block[level]) == i {
        assert Walk(g, m', c, level - 1, Mod(rel, g.block[level])) == Fault;
      } else {
        OtherEntries(g, m, path, up, m', t, level, i, rel);
      }
    }
  }

  /** What linking a fresh table changes, and what it does not. */
  lemma Linking(g: Geometry, m: Memory, path: Paths, up: Parents, m': Memory, path': Paths, up': Parents, t: nat,
                level: nat, i: nat, c: nat, rem: nat, chunk: nat)
    requires g.Valid() && Tree(g, m, path, up) && t in m && level == g.Top() - |path[t]| && level > 0
    requires i < |m[t]| && m[t][i].Invalid? && c !in m && m' == m[c := Fresh(g.entries)][t := m[t][i := Table(c)]]
    requires path' == path[c := path[t] + [i]] && up' == up[c := t]
    ensures KeptOutsideEntry(m, path, m', path', t, i) && SameWalk(g, m, m', t, level)
    ensures Extends(m, m') && GrowsEntry(g, m, path, m', path', path'[t] + [i], level, rem, chunk)
  {
    FreshWalk(g, m, path, up, t, level, i, c);
    GrowsLink(g, m, path, t, i, c, g.entries, level, rem, chunk);
  }

  /** The check on `(vaddr_rel | paddr | size) & (page size - 1)`. */
  predicate Aligned(g: Geometry, v: nat, pa: nat, size: nat)
    requires |g.block| > 0 && g.block[0] > 0
  {
    Mod(v, g.block[0]) == 0 && Mod(pa, g.block[0]) == 0 && Mod(size, g.block[0]) == 0
  }

  lemma ChunkAligned(g: Geometry, level: nat, v: nat, pa: nat, n: nat, size: nat)
    requires g.Valid() && level < |g.block| && Aligned(g, v, pa, size) && Mod(n, g.block[0]) == 0 && n < size
    ensures Aligned(g, Mod(v + n, g.block[level]), pa + n, Chunk(v + n, size - n, g.block[level]))
  {
    var p, b := g.block[0], g.block[level];
    ModAdd(v, n, p);
    ModAdd(pa, n, p);
    ModSub(size, n, p);
    BlockAligned(g, level);
    ModNested(v + n, b, p);
    ModSub(b, Mod(v + n, b), p);
  }

  lemma CardDrop(free: set<nat>, c: nat)
    requires c in free
    ensures Card(free - {c}) + 1 == Card(free)
  {
    CardIs(free);
    CardIs(free - {c});
  }

  lemma KeptTwice(m0: Memory, path0: Paths, m: Memory, path: Paths, m': Memory, path': Paths, t: nat, i: nat)
    requires m0.Keys == path0.Keys && m.Keys == path.Keys && m'.Keys == path'.Keys && t in m0
    requires KeptOutsideEntry(m0, path0, m, path, t, i) && KeptOutsideEntry(m, path, m', path', t, i)
    ensures KeptOutsideEntry(m0, path0, m', path', t, i)
  {
  }

  lemma MapsAfterSame(g: Geometry, m0: Memory, m: Memory, m': Memory, t: nat, level: nat, i: nat, rem: nat, pa: nat,
                      chunk: nat, attrs: nat)
    requires g.Valid() && level < |g.block| && SameWalk(g, m0, m, t, level)
    requires MapsEntry(g, m, m', t, level, i, rem, pa, chunk, attrs)
    ensures MapsEntry(g, m0, m', t, level, i, rem, pa, chunk, attrs)
  {
  }

  lemma KeptTrans(m0: Memory, path0: Paths, m: Memory, path: Paths, m': Memory, path': Paths, t: nat)
    requires m0.Keys == path0.Keys && m.Keys == path.Keys && m'.Keys == path'.Keys && t in m0
    requires KeptOutside(m0, path0, m, path, t) && KeptOutside(m, path, m', path', t)
    ensures KeptOutside(m0, path0, m', path', t)
  {
  }

  lemma MapsBelow(g: Geometry, m: Memory, path: Paths, up: Parents, m': Memory, path': Paths, t: nat, level: nat,
                  i: nat, c: nat, rem: nat, pa: nat, chunk: nat, attrs: nat)
    requires g.Valid() && Tree(g, m, path, up) && t in m && level == g.Top() - |path[t]| && level > 0
    requires i < |m[t]| && m[t][i] == Table(c) && c in m && path[c] == path[t] + [i]
    requires m'.Keys == path'.Keys && KeptOutside(m, path, m', path', c)
    requires Maps(g, m, m', c, level - 1, rem, pa, chunk, attrs)
    ensures MapsEntry(g, m, m', t, level, i, rem, pa, chunk, attrs)
  {
    KeptChild(m, path, m', path', t, i, c);
    forall rel: nat
      ensures if Div(rel, g.block[level]) == i && rem <= Mod(rel, g.block[level]) < rem + chunk
              then Walk(g, m, t, level, rel) == Fault
                   && Mapped(Walk(g, m', t, level, rel), Mod(rel, g.block[level]), rem, pa, chunk, attrs)
              else Walk(g, m', t, level, rel) == Walk(g, m, t, level, rel)
    {
      EntryWalk(g, m, path, up, m', t, level, i, c, rel);
    }
  }

  lemma SameBelow(g: Geometry, m: Memory, path: Paths, up: Parents, m': Memory, path': Paths, t: nat, level: nat,
                  i: nat, c: nat)
    requires g.Valid() && Tree(g, m, path, up) && t in m && level == g.Top() - |path[t]| && level > 0
    requires i < |m[t]| && m[t][i] == Table(c) && c in m && path[c] == path[t] + [i]
    requires m'.Keys == path'.Keys && KeptOutside(m, path, m', path', c)
    requires SameWalk(g, m, m', c, level - 1)
    ensures SameWalk(g, m, m', t, level)
  {
    KeptChild(m, path, m', path', t, i, c);
    forall rel: nat ensures Walk(g, m', t, level, rel) == Walk(g, m, t, level, rel) {
      EntryWalk(g, m, path, up, m', t, level, i, c, rel);
    }
  }

  /** Only a lack of pages blocks a fresh table. */
  lemma FreshBlocked(g: Geometry, m: Memory, free: nat, c: nat, level: nat, v: nat, pa: nat, size: nat)
    requires g.Valid() && level < |g.block| && c in m && m[c] == Fresh(g.entries)
    requires Blocked(g, m, free, c, level, v, pa, size)
    ensures free < Lack(g, map[], 0, level, v, pa, size)
  {
    LackFresh(g, m, c, level, v, pa, size);
  }

  /** How the memory `m` with the table for entry `i` came from `m0`: it was there, or it is fresh. */
  ghost predicate GotTable(g: Geometry, m0: Memory, m: Memory, free0: nat, free: nat, t: nat, i: nat, c: nat) {
    && t in m0 && i < |m0[t]| && t in m && i < |m[t]| && m[t][i] == Table(c)
    && if m0[t][i].Table? then m == m0 && free == free0
       else c in m && m[c] == Fresh(g.entries) && free + 1 == free0
  }

  lemma BlockedUp(g: Geometry, m0: Memory, m: Memory, free0: nat, free: nat, t: nat, level: nat, i: nat, c: nat,
                  rem: nat, pa: nat, chunk: nat)
    requires g.Valid() && 0 < level < |g.block| && GotTable(g, m0, m, free0, free, t, i, c)
    requires rem + chunk <= g.block[level] && !WholeBlock(g, level, rem, pa, chunk)
    requires Blocked(g, m, free, c, level - 1, rem, pa, chunk)
    ensures EntryBlocked(g, m0, free0, t, level, i, rem, pa, chunk)
  {
    if m0[t][i].Table? {
      BelowBlocks(g, m, free, t, level, i, c, rem, pa, chunk);
    } else {
      FreshBlocked(g, m, free, c, level - 1, rem, pa, chunk);
    }
  }

  /** The tables used up are those that were missing. */
  lemma LackUp(g: Geometry, m0: Memory, m: Memory, free0: nat, free: nat, free': nat, t: nat, level: nat, i: nat,
               c: nat, rem: nat, pa: nat, chunk: nat)
    requires g.Valid() && 0 < level < |g.block| && GotTable(g, m0, m, free0, free, t, i, c)
    requires !WholeBlock(g, level, rem, pa, chunk) && free' + Lack(g, m, c, level - 1, rem, pa, chunk) == free
    requires !InWay(g, m, c, level - 1, rem, pa, chunk)
    ensures free' + LackEntry(g, m0, t, level, i, rem, pa, chunk) == free0
    ensures !InWayEntry(g, m0, t, level, i, rem, pa, chunk)
  {
    if !m0[t][i].Table? {
      LackFresh(g, m, c, level - 1, rem, pa, chunk);
    }
  }

  lemma MapsSame(g: Geometry, m0: Memory, m: Memory, m': Memory, t: nat, level: nat, v: nat, pa: nat, n: nat,
                 attrs: nat)
    requires g.Valid() && level < |g.block|
    requires Maps(g, m0, m, t, level, v, pa, n, attrs) && SameWalk(g, m, m', t, level)
    ensures Maps(g, m0, m', t, level, v, pa, n, attrs)
  {
  }

  /** Mapping, failing to and unmapping keep every leaf one that a descriptor can hold. */
  lemma FittedMapped(g: Geometry, m: Memory, m': Memory, t: nat, level: nat, v: nat, pa: nat, size: nat, attrs: nat)
    requires g.Valid() && level < |g.block| && Fitted(g, m, t, level)
    requires Maps(g, m, m', t, level, v, pa, size, attrs) && Placed(g, m', t, level, v, pa, size)
    ensures Fitted(g, m', t, level)
  {
    forall rel: nat ensures FitAt(g, m', t, level, rel) {
      assert FitAt(g, m, t, level, rel);
      if v <= rel < v + size {
        assert PlacedAt(g, m', t, level, v, pa, size, rel);
      }
    }
  }

  lemma FittedSame(g: Geometry, m: Memory, m': Memory, t: nat, level: nat)
    requires g.Valid() && level < |g.block| && Fitted(g, m, t, level) && SameWalk(g, m, m', t, level)
    ensures Fitted(g, m', t, level)
  {
    forall rel: nat ensures FitAt(g, m', t, level, rel) {
      assert FitAt(g, m, t, level, rel);
    }
  }

  lemma FittedUnmapped(g: Geometry, m: Memory, m': Memory, t: nat, level: nat, v: nat, size: nat)
    requires g.Valid() && level < |g.block| && Fitted(g, m, t, level) && Unmaps(g, m, m', t, level, v, size)
    ensures Fitted(g, m', t, level)
  {
    forall rel: nat ensures FitAt(g, m', t, level, rel) {
      assert FitAt(g, m, t, level, rel);
    }
  }

  lemma FitsPart(v: nat, n: nat, size: nat, b: nat, count: nat)
    requires b > 0 && n <= size && Fits(v, size, b, count)
    ensures Fits(v, n, b, count)
  {
    if n > 0 {
      DivMono(v + n - 1, v + size - 1, b);
    }
  }

  lemma LeafMaps(g: Geometry, m: Memory, path: Paths, up: Parents, t: nat, level: nat, i: nat, pa: nat, attrs: nat)
    requires g.Valid() && Tree(g, m, path, up) && t in m && level == g.Top() - |path[t]|
    requires i < |m[t]| && m[t][i].Invalid?
    ensures MapsEntry(g, m, m[t := m[t][i := Leaf(pa, attrs)]], t, level, i, 0, pa, g.block[level], attrs)
  {
    var m' := m[t := m[t][i := Leaf(pa, attrs)]];
    forall rel: nat | Div(rel, g.block[level]) != i
      ensures Walk(g, m', t, level, rel) == Walk(g, m, t, level, rel)
    {
      OtherEntries(g, m, path, up, m', t, level, i, rel);
    }
  }

  /** What is missing or in the way under an untouched entry was so before. */
  lemma LackBefore(g: Geometry, m0: Memory, path0: Paths, up0: Parents, m: Memory, path: Paths, t: nat, level: nat,
                   i: nat, rem: nat, pa: nat, chunk: nat)
    requires g.Valid() && Tree(g, m0, path0, up0) && t in m0 && level == g.Top() - |path0[t]|
    requires m.Keys == path.Keys && UntouchedFrom(m0, path0, m, path, t, i)
    ensures LackEntry(g, m0, t, level, i, rem, pa, chunk) == LackEntry(g, m, t, level, i, rem, pa, chunk)
    ensures InWayEntry(g, m0, t, level, i, rem, pa, chunk) == InWayEntry(g, m, t, level, i, rem, pa, chunk)
  {
    forall s | s in m0 && path0[t] + [i] <= path0[s] ensures s in m && m[s] == m0[s] {
      assert path0[s][|path0[t]|] == (path0[t] + [i])[|path0[t]|];
      assert path0[t] <= path0[t] + [i];
    }
    LackEntryFrame(g, m0, path0, up0, m, t, level, i, rem, pa, chunk);
  }

  /** Pages used for the first `n` of `size` bytes: the tables missing for all of them but the rest.  What is in the
      way is in the way of the rest. */
  ghost predicate Spent(g: Geometry, m0: Memory, free0: nat, free: nat, t: nat, level: nat, v: nat, pa: nat, n: nat,
                        size: nat)
    requires g.Valid() && level < |g.block| && n <= size
  {
    && free + Lack(g, m0, t, level, v, pa, size) == free0 + Lack(g, m0, t, level, v + n, pa + n, size - n)
    && (InWay(g, m0, t, level, v, pa, size) <==> InWay(g, m0, t, level, v + n, pa + n, size - n))
  }

  lemma SpentNext(g: Geometry, m0: Memory, free0: nat, free: nat, free': nat, t: nat, level: nat, v: nat, pa: nat,
                  n: nat, n': nat, size: nat, i: nat, rem: nat, chunk: nat)
    requires g.Valid() && level < |g.block| && n < size && Spent(g, m0, free0, free, t, level, v, pa, n, size)
    requires i == Div(v + n, g.block[level]) && rem == Mod(v + n, g.block[level])
    requires chunk == Chunk(v + n, size - n, g.block[level]) && n' == n + chunk
    ensures free' + LackEntry(g, m0, t, level, i, rem, pa + n, chunk) == free
            && !InWayEntry(g, m0, t, level, i, rem, pa + n, chunk)
            ==> Spent(g, m0, free0, free', t, level, v, pa, n', size)
    ensures free < LackEntry(g, m0, t, level, i, rem, pa + n, chunk) ==> free0 < Lack(g, m0, t, level, v, pa, size)
    ensures InWayEntry(g, m0, t, level, i, rem, pa + n, chunk) ==> InWay(g, m0, t, level, v, pa, size)
  {
    assert v + n + chunk == v + n' && pa + n + chunk == pa + n' && size - n - chunk == size - n';
  }

  /** What blocks the next entry blocked the whole request when it began. */
  lemma BlockedBefore(g: Geometry, m0: Memory, path0: Paths, up0: Parents, m: Memory, path: Paths, t: nat, level: nat,
                      v: nat, pa: nat, n: nat, size: nat, attrs: nat, free0: nat, free: nat, i: nat, rem: nat,
                      chunk: nat)
    requires g.Valid() && Tree(g, m0, path0, up0) && t in m0 && level == g.Top() - |path0[t]|
    requires m.Keys == path.Keys && n < size
    requires MapDone(g, m0, path0, m, path, t, level, v, pa, n, size, attrs)
    requires i == Div(v + n, g.block[level]) && rem == Mod(v + n, g.block[level])
    requires chunk == Chunk(v + n, size - n, g.block[level])
    requires Spent(g, m0, free0, free, t, level, v, pa, n, size)
    requires EntryBlocked(g, m, free, t, level, i, rem, pa + n, chunk)
    ensures Blocked(g, m0, free0, t, level, v, pa, size)
  {
    var b := g.block[level];
    if free < LackEntry(g, m, t, level, i, rem, pa + n, chunk) || InWayEntry(g, m, t, level, i, rem, pa + n, chunk) {
      LackBefore(g, m0, path0, up0, m, path, t, level, i, rem, pa + n, chunk);
      SpentNext(g, m0, free0, free, free, t, level, v, pa, n, n + chunk, size, i, rem, chunk);
    } else {
      var rel: nat :| Div(rel, b) == i && rem <= Mod(rel, b) < rem + chunk && Walk(g, m, t, level, rel).Hit?;
      BlockOrder(rel, v + n, b);
      assert HitIn(g, m0, t, level, v, size);
    }
  }

  lemma KeptPlace(m0: Memory, path0: Paths, m: Memory, path: Paths, m': Memory, path': Paths, t: nat, i: nat)
    requires m0.Keys == path0.Keys && m.Keys == path.Keys && m'.Keys == path'.Keys && t in m0
    requires KeptOutside(m0, path0, m, path, t) && KeptOutsideEntry(m, path, m', path', t, i)
    ensures t in m' && path'[t] == path0[t] && |m'[t]| == |m[t]|
  {
  }

  lemma SpentMade(g: Geometry, m0: Memory, path0: Paths, up0: Parents, m: Memory, path: Paths, t: nat, level: nat,
                  v: nat, pa: nat, n: nat, n': nat, size: nat, free0: nat, free: nat, free': nat, i: nat, rem: nat,
                  chunk: nat)
    requires g.Valid() && Tree(g, m0, path0, up0) && t in m0 && level == g.Top() - |path0[t]| && n < size
    requires m.Keys == path.Keys && UntouchedFrom(m0, path0, m, path, t, i)
    requires i == Div(v + n, g.block[level]) && rem == Mod(v + n, g.block[level])
    requires chunk == Chunk(v + n, size - n, g.block[level]) && n' == n + chunk
    requires Spent(g, m0, free0, free, t, level, v, pa, n, size)
    requires free' + LackEntry(g, m, t, level, i, rem, pa + n, chunk) == free
    requires !InWayEntry(g, m, t, level, i, rem, pa + n, chunk)
    ensures Spent(g, m0, free0, free', t, level, v, pa, n', size)
  {
    LackBefore(g, m0, path0, up0, m, path, t, level, i, rem, pa + n, chunk);
    SpentNext(g, m0, free0, free, free', t, level, v, pa, n, n', size, i, rem, chunk);
  }

  lemma StepMade(g: Geometry, m0: Memory, path0: Paths, up0: Parents, m: Memory, path: Paths, m': Memory, path': Paths,
                 t: nat, level: nat, v: nat, pa: nat, n: nat, n': nat, size: nat, attrs: nat, free0: nat, free: nat,
                 free': nat, i: nat, rem: nat, chunk: nat)
    requires g.Valid() && Tree(g, m0, path0, up0) && t in m0 && level == g.Top() - |path0[t]| && n < size
    requires m.Keys == path.Keys && m'.Keys == path'.Keys
    requires MapDone(g, m0, path0, m, path, t, level, v, pa, n, size, attrs)
    requires i == Div(v + n, g.block[level]) && rem == Mod(v + n, g.block[level])
    requires chunk == Chunk(v + n, size - n, g.block[level]) && n' == n + chunk && Mod(chunk, g.block[0]) == 0
    requires KeptOutsideEntry(m, path, m', path', t, i)
    requires MapsEntry(g, m, m', t, level, i, rem, pa + n, chunk, attrs)
    requires Extends(m, m') && GrowsEntry(g, m, path, m', path', path'[t] + [i], level, rem, chunk)
    requires PlacedEntry(g, m', t, level, i, rem, pa + n, chunk)
    requires Spent(g, m0, free0, free, t, level, v, pa, n, size)
    requires free' + LackEntry(g, m, t, level, i, rem, pa + n, chunk) == free
    requires !InWayEntry(g, m, t, level, i, rem, pa + n, chunk)
    ensures n < n' <= size && |m'[t]| == |m[t]|
    ensures MapDone(g, m0, path0, m', path', t, level, v, pa, n', size, attrs)
    ensures Spent(g, m0, free0, free', t, level, v, pa, n', size)
  {
    KeptPlace(m0, path0, m, path, m', path', t, i);
    SpentMade(g, m0, path0, up0, m, path, t, level, v, pa, n, n', size, free0, free, free', i, rem, chunk);
    assert n < n' <= size && MapDone(g, m0, path0, m', path', t, level, v, pa, n', size, attrs) by {
      MapNext(g, m0, path0, m, path, m', path', t, level, v, pa, n, n', size, attrs, i, rem, chunk);
    }
  }

  /** A step that fails has left what was done as it was, and added nothing outside the range. */
  lemma StepStopped(g: Geometry, m0: Memory, path0: Paths, up0: Parents, m: Memory, path: Paths, m': Memory,
                    path': Paths, t: nat, level: nat, v: nat, pa: nat, n: nat, size: nat, attrs: nat, free0: nat,
                    free: nat, i: nat, rem: nat, chunk: nat)
    requires g.Valid() && Tree(g, m0, path0, up0) && t in m0 && level == g.Top() - |path0[t]| && n < size
    requires m.Keys == path.Keys && m'.Keys == path'.Keys
    requires MapDone(g, m0, path0, m, path, t, level, v, pa, n, size, attrs)
    requires i == Div(v + n, g.block[level]) && rem == Mod(v + n, g.block[level])
    requires chunk == Chunk(v + n, size - n, g.block[level])
    requires KeptOutsideEntry(m, path, m', path', t, i) && SameWalk(g, m, m', t, level)
    requires GrowsEntry(g, m, path, m', path', path'[t] + [i], level, rem, chunk)
    requires Spent(g, m0, free0, free, t, level, v, pa, n, size)
    requires EntryBlocked(g, m, free, t, level, i, rem, pa + n, chunk)
    ensures Blocked(g, m0, free0, t, level, v, pa, size) && |m'[t]| == |m[t]|
    ensures KeptOutside(m0, path0, m', path', t) && Maps(g, m0, m', t, level, v, pa, n, attrs)
    ensures Grows(g, m0, path0, m', path', path0[t], level, v, size)
  {
    BlockedBefore(g, m0, path0, up0, m, path, t, level, v, pa, n, size, attrs, free0, free, i, rem, chunk);
    KeptNext(m0, path0, m, path, m', path', t, i);
    GrowsNext(g, m0, path0, m, path, m', path', path0[t], level, v + n, i, rem, chunk, v, size);
    MapsSame(g, m0, m, m', t, level, v, pa, n, attrs);
  }

  lemma FitsLimit(v: nat, size: nat, b: nat, count: nat)
    requires b > 0 && v + size <= b * count
    ensures Fits(v, size, b, count)
  {
    if size > 0 {
      DivBound(v + size - 1, b, count);
    }
  }

  /** The range check of arm64_mmu_map and arm64_mmu_unmap is right although its subtraction may wrap. */
  lemma RangeCheck(rel: nat, size: nat, limit: nat)
    requires size < WORD && limit < WORD
    ensures (rel > (limit - size) % WORD || size > limit) <==> rel + size > limit
  {
  }

  /** Where a walk sends an address. */
  ghost function Target(x: Xlat, rel: nat): Option<nat> {
    if x.Fault? then None else Some(x.pa + x.off)
  }

  /** In terms of a flat map from virtual to physical addresses, a successful map is an override. */
  lemma MapsFlat(g: Geometry, m: Memory, m': Memory, t: nat, level: nat, v: nat, pa: nat, size: nat, attrs: nat,
                 rel: nat)
    requires g.Valid() && level < |g.block| && Maps(g, m, m', t, level, v, pa, size, attrs)
    ensures Target(Walk(g, m', t, level, rel), rel)
         == if v <= rel < v + size then Some(pa + (rel - v)) else Target(Walk(g, m, t, level, rel), rel)
    ensures v <= rel < v + size ==> Target(Walk(g, m, t, level, rel), rel) == None
  {
    assert if v <= rel < v + size
           then Walk(g, m, t, level, rel) == Fault && Mapped(Walk(g, m', t, level, rel), rel, v, pa, size, attrs)
           else Walk(g, m', t, level, rel) == Walk(g, m, t, level, rel);
  }

  /** No leaf has addresses on both sides of an end of `[v, v + size)`. */
  ghost predicate NoStraddle(g: Geometry, m: Memory, t: nat, level: nat, v: nat, size: nat)
    requires g.Valid() && level < |g.block|
  {
    forall rel: nat :: !(v <= rel < v + size) && Walk(g, m, t, level, rel).Hit?
                       ==> !Meets(Walk(g, m, t, level, rel), rel, v, size)
  }

  /** Every address of `[v, v + size)` is unmapped and every other address walks as before. */
  ghost predicate RemovesExactly(g: Geometry, m: Memory, m': Memory, t: nat, level: nat, v: nat, size: nat)
    requires g.Valid() && level < |g.block|
  {
    forall rel: nat :: Walk(g, m', t, level, rel) == if v <= rel < v + size then Fault else Walk(g, m, t, level, rel)
  }

  /** Unmapping removes exactly its range if and only if no leaf straddles an end of it. */
  lemma UnmapExactIff(g: Geometry, m: Memory, m': Memory, t: nat, level: nat, v: nat, size: nat)
    requires g.Valid() && level < |g.block| && Unmaps(g, m, m', t, level, v, size)
    ensures RemovesExactly(g, m, m', t, level, v, size) <==> NoStraddle(g, m, t, level, v, size)
  {
    forall rel: nat
      ensures v <= rel < v + size ==> Walk(g, m', t, level, rel) == Fault
      ensures Walk(g, m', t, level, rel) == Cleared(Walk(g, m, t, level, rel), rel, v, size)
    {
      WalkInBlock(g, m, t, level, rel);
    }
    if RemovesExactly(g, m, m', t, level, v, size) {
      forall rel: nat | !(v <= rel < v + size) && Walk(g, m, t, level, rel).Hit?
        ensures !Meets(Walk(g, m, t, level, rel), rel, v, size)
      {
        assert Walk(g, m', t, level, rel) == Walk(g, m, t, level, rel);
      }
    }
  }

  /** Tables of 4096-byte pages with a 2 MiB block at the start: unmapping its first page unmaps the second too. */
  lemma PartialBlock(m': Memory)
    ensures var g, m := Arm64(12, 1, 0, 0), map[0 := [Leaf(0, 0)]];
            && g.Valid() && Tree(g, m, map[0 := []], map[0 := 0])
            && Walk(g, m, 0, 1, 4096) == Hit(0, 0, 4096, 0x20_0000)
            && (Unmaps(g, m, m', 0, 1, 0, 4096) ==> Walk(g, m', 0, 1, 4096) == Fault)
  {
    var g, m: Memory := Arm64(12, 1, 0, 0), map[0 := [Leaf(0, 0)]];
    Arm64Valid(12, 1, 0, 0);
    Pow2Add(9, 12);
    assert Pow2(9) == 512 && Pow2(12) == 4096 && IndexShift(12, 1) == 21;
    assert g.block[1] == 0x20_0000 && Walk(g, m, 0, 1, 4096) == Hit(0, 0, 4096, 0x20_0000);
  }

  class PageTables {
    const g: Geometry
    const pmm: Pmm.Allocator
    var mem: Memory
    ghost var path: Paths
    ghost var up: Parents

    /** The live tables form a tree under the root; none of them is on a free list; every leaf is aligned to its
        size, which is not too large for a block. */
    ghost predicate Valid()
      reads this, pmm
    {
      && g.Valid() && pmm.Valid() && mem.Keys !! pmm.free && mem.Keys - {g.root} <= pmm.pages
      && Rooted(g, mem, path, up) && Fitted(g, mem, g.root, g.Top())
    }

    ghost predicate Sound()
      reads this, pmm
    {
      && g.Valid() && Tree(g, mem, path, up) && pmm.Valid()
      && mem.Keys !! pmm.free
      && mem.Keys - {g.root} <= pmm.pages
    }

    /** The pages that are live tables or free. */
    ghost function Pages(): set<nat>
      reads this, pmm
    {
      mem.Keys + pmm.free
    }

    /** `t` is a live table whose entries cover blocks of level `level`. */
    ghost predicate At(t: nat, level: nat)
      reads this
    {
      t in mem && t in path && |g.block| > 0 && level == g.Top() - |path[t]|
    }

    /** A zeroed top table at `g.root`, as arch_mmu_init_aspace leaves it. */
    constructor (g: Geometry, pmm: Pmm.Allocator)
      requires g.Valid() && pmm.Valid() && g.root !in pmm.free
      ensures Valid() && this.g == g && this.pmm == pmm && mem.Keys == {g.root}
      ensures forall rel: nat :: Walk(g, mem, g.root, g.Top(), rel) == Fault
    {
      this.g, this.pmm := g, pmm;
      mem := map[g.root := Fresh(g.topEntries)];
      path, up := map[g.root := []], map[g.root := 0];
    }

    /** page_table_is_clear */
    method IsClear(t: nat) returns (clear: bool)
      requires t in mem
      ensures clear <==> forall i :: 0 <= i < |mem[t]| ==> mem[t][i].Invalid?
    {
      for i := 0 to |mem[t]|
        invariant forall j :: 0 <= j < i ==> mem[t][j].Invalid?
      {
        if !mem[t][i].Invalid? {
          return false;
        }
      }
      return true;
    }

    /** One turn of the loop of arm64_mmu_unmap_pt. */
    method UnmapEntry(t: nat, level: nat, i: nat, rem: nat, chunk: nat)
      requires Sound() && At(t, level) && i < |mem[t]|
      requires 0 < chunk && rem + chunk <= g.block[level]
      modifies this, pmm
      ensures Sound() && At(t, level)
      ensures KeptOutsideEntry(old(mem), old(path), mem, path, t, i)
      ensures Pages() == old(Pages())
      ensures pmm.pages == old(pmm.pages)
      ensures UnmapsEntry(g, old(mem), mem, t, level, i, rem, chunk)
      ensures chunk == g.block[level] ==> mem[t][i].Invalid?
      ensures Shrinks(old(mem), old(path), mem, path) && TidyEntry(g, mem, path, path[t] + [i], level, rem, chunk)
      decreases level, 1
    {
      match mem[t][i]
      case Invalid =>
        ShrinksSelf(mem, path);
        TidyEmpty(g, mem, path, up, t, i, level, rem, chunk);
      case Leaf(_, _) =>
        SetEntry(g, mem, path, up, t, i, Invalid);
        ClearLeaf(g, mem, path, up, t, level, i, rem, chunk);
        ShrinksSet(mem, path, t, i);
        mem := mem[t := mem[t][i := Invalid]];
        TidyEmpty(g, mem, path, up, t, i, level, rem, chunk);
      case Table(c) =>
        UnmapTable(t, level, i, c, rem, chunk);
    }

    /** The branch of that loop for a link: unmap below it, then drop the table if it is left empty. */
    method UnmapTable(t: nat, level: nat, i: nat, c: nat, rem: nat, chunk: nat)
      requires Sound() && At(t, level) && i < |mem[t]| && mem[t][i] == Table(c)
      requires 0 < chunk && rem + chunk <= g.block[level]
      modifies this, pmm
      ensures Sound() && At(t, level)
      ensures KeptOutsideEntry(old(mem), old(path), mem, path, t, i)
      ensures Pages() == old(Pages()) && pmm.pages == old(pmm.pages)
      ensures UnmapsEntry(g, old(mem), mem, t, level, i, rem, chunk)
      ensures chunk == g.block[level] ==> mem[t][i].Invalid?
      ensures Shrinks(old(mem), old(path), mem, path) && TidyEntry(g, mem, path, path[t] + [i], level, rem, chunk)
      decreases level, 0
    {
      assert Child(g, mem, path, up, t, i);
      FitsBelow(g, level, rem, chunk);
      UnmapPt(c, level - 1, rem, chunk);
      KeptChild(old(mem), old(path), mem, path, t, i, c);
      UnmapsBelow(g, old(mem), old(path), old(up), mem, path, t, level, i, c, rem, chunk);
      var clear := IsClear(c);
      if chunk == g.block[level] || clear {
        ghost var m, path1 := mem, path;
        DropTable(t, level, i, c);
        KeptDrop(old(mem), old(path), m, path1, t, i, c);
        ShrinksDrop(m, path1, t, i, c);
        ShrinksTrans(old(mem), old(path), m, path1, mem, path);
        TidyEmpty(g, mem, path, up, t, i, level, rem, chunk);
      } else {
        TidyBelow(g, mem, path, up, t, i, c, level, rem, chunk);
      }
    }

    /** Unlink a table that has no entries and give its page back. */
    method DropTable(t: nat, level: nat, i: nat, c: nat)
      requires Sound() && At(t, level) && i < |mem[t]| && mem[t][i] == Table(c)
      requires c in mem && forall j :: 0 <= j < |mem[c]| ==> mem[c][j].Invalid?
      modifies this, pmm
      ensures Sound() && At(t, level)
      ensures mem == old(mem)[t := old(mem)[t][i := Invalid]] - {c} && path == old(path) - {c}
      ensures path[t] + [i] == old(path)[c]
      ensures Pages() == old(Pages()) && pmm.pages == old(pmm.pages)
      ensures SameWalk(g, old(mem), mem, t, level)
    {
      assert Child(g, mem, path, up, t, i);
      Unlink(g, mem, path, up, t, i);
      DropClear(g, mem, path, up, t, level, i);
      mem, path, up := mem[t := mem[t][i := Invalid]] - {c}, path - {c}, up - {c};
      pmm.FreePage(c);
    }

    /** arm64_mmu_unmap_pt: every leaf that meets `[v, v + size)` goes, and only those; tables left
        without entries go back to the allocator. */
    method UnmapPt(t: nat, level: nat, v: nat, size: nat)
      requires Sound() && At(t, level) && Fits(v, size, g.block[level], |mem[t]|)
      modifies this, pmm
      ensures Sound() && At(t, level)
      ensures KeptOutside(old(mem), old(path), mem, path, t)
      ensures Pages() == old(Pages())
      ensures pmm.pages == old(pmm.pages)
      ensures Unmaps(g, old(mem), mem, t, level, v, size)
      ensures v == 0 ==> EmptyTo(mem[t], Div(size, g.block[level]))
      ensures Shrinks(old(mem), old(path), mem, path) && Tidy(g, mem, path, path[t], level, v, size)
      decreases level, 2
    {
      var n := 0;
      ShrinksSelf(mem, path);
      TidyStart(g, mem, path, path[t], level, v);
      while n < size
        invariant n <= size && Sound() && At(t, level) && |mem[t]| == |old(mem)[t]|
        invariant Pages() == old(Pages()) && pmm.pages == old(pmm.pages)
        invariant UnmapDone(g, old(mem), old(path), mem, path, t, level, v, n, size)
      {
        var b := g.block[level];
        var rem, i, chunk := Mod(v + n, b), Div(v + n, b), Chunk(v + n, size - n, b);
        DivMono(v + n, v + size - 1, b);
        ghost var m, path0, up0, n0 := mem, path, up, n;
        UnmapEntry(t, level, i, rem, chunk);
        n := n + chunk;
        UnmapNext(g, old(mem), old(path), m, path0, up0, mem, path, t, level, v, n0, n, size, i, rem, chunk);
      }
    }

    /** arm64_mmu_get_page_table: the table linked from entry `i`, made if the entry is empty. */
    method GetPageTable(t: nat, level: nat, i: nat, ghost rem: nat, ghost chunk: nat) returns (c: Option<nat>)
      requires Sound() && At(t, level) && level > 0 && i < |mem[t]|
      modifies this, pmm
      ensures Sound() && At(t, level) && KeptOutsideEntry(old(mem), old(path), mem, path, t, i)
      ensures Pages() == old(Pages()) && pmm.pages == old(pmm.pages)
      ensures SameWalk(g, old(mem), mem, t, level)
      ensures c.None? ==> && mem == old(mem) && path == old(path) && up == old(up)
                          && pmm.free == old(pmm.free) && (mem[t][i].Leaf? || (mem[t][i].Invalid? && pmm.free == {}))
      ensures c.Some? ==> GotTable(g, old(mem), mem, Card(old(pmm.free)), Card(pmm.free), t, i, c.value)
      ensures Extends(old(mem), mem) && GrowsEntry(g, old(mem), old(path), mem, path, path[t] + [i], level, rem, chunk)
    {
      if mem[t][i].Invalid? {
        c := NewTable(t, level, i);
        if c.None? {
          GrowsSelf(g, mem, path, path[t] + [i], level, rem, chunk);
          return;
        }
        Linking(g, old(mem), old(path), old(up), mem, path, up, t, level, i, c.value, rem, chunk);
        return;
      } else {
        GrowsSelf(g, mem, path, path[t] + [i], level, rem, chunk);
        return if mem[t][i].Table? then Some(mem[t][i].next) else None;
      }
    }

    /** Take a page for a table, clear it and link it from the empty entry `i`. */
    method NewTable(t: nat, level: nat, i: nat) returns (c: Option<nat>)
      requires Sound() && At(t, level) && level > 0 && i < |mem[t]| && mem[t][i].Invalid?
      modifies this, pmm
      ensures Sound() && At(t, level) && pmm.pages == old(pmm.pages) && Pages() == old(Pages())
      ensures c.None? ==> && mem == old(mem) && path == old(path) && up == old(up)
                          && pmm.free == old(pmm.free) == {}
      ensures c.Some? ==>
                && c.value !in old(mem)
                && GotTable(g, old(mem), mem, Card(old(pmm.free)), Card(pmm.free), t, i, c.value)
                && mem == old(mem)[c.value := Fresh(g.entries)][t := old(mem)[t][i := Table(c.value)]]
                && path == old(path)[c.value := old(path)[t] + [i]] && up == old(up)[c.value := t]
    {
      c := pmm.AllocPage();
      if c.Some? {
        CardDrop(old(pmm.free), c.value);
        LinkFresh(g, mem, path, up, t, i, c.value);
        mem, path, up := mem[c.value := Fresh(g.entries)][t := mem[t][i := Table(c.value)]],
                         path[c.value := path[t] + [i]], up[c.value := t];
      }
    }

    /** The branch of the loop of arm64_mmu_map_pt that goes through a table. */
    method MapTable(t: nat, level: nat, i: nat, rem: nat, pa: nat, chunk: nat, attrs: nat) returns (ok: bool)
      requires Sound() && At(t, level) && level > 0 && i < |mem[t]|
      requires 0 < chunk && rem + chunk <= g.block[level] && Aligned(g, rem, pa, chunk)
      requires !WholeBlock(g, level, rem, pa, chunk)
      modifies this, pmm
      ensures Sound() && At(t, level) && KeptOutsideEntry(old(mem), old(path), mem, path, t, i)
      ensures Pages() == old(Pages()) && pmm.pages == old(pmm.pages)
      ensures ok ==> MapsEntry(g, old(mem), mem, t, level, i, rem, pa, chunk, attrs)
      ensures ok ==> Card(pmm.free) + LackEntry(g, old(mem), t, level, i, rem, pa, chunk) == Card(old(pmm.free))
      ensures ok ==> !InWayEntry(g, old(mem), t, level, i, rem, pa, chunk)
      ensures !ok ==> SameWalk(g, old(mem), mem, t, level)
      ensures !ok ==> EntryBlocked(g, old(mem), Card(old(pmm.free)), t, level, i, rem, pa, chunk)
      ensures GrowsEntry(g, old(mem), old(path), mem, path, path[t] + [i], level, rem, chunk)
      ensures ok ==> Extends(old(mem), mem) && PlacedEntry(g, mem, t, level, i, rem, pa, chunk)
      decreases level, 1
    {
      var c := GetPageTable(t, level, i, rem, chunk);
      if c.None? {
        if mem[t][i].Leaf? {
          LeafBlocks(g, mem, Card(pmm.free), t, level, i, rem, pa, chunk);
        }
        return false;
      }
      ghost var m, path1, free1 := mem, path, Card(pmm.free);
      ok := MapLinked(t, level, i, c.value, rem, pa, chunk, attrs);
      KeptTwice(old(mem), old(path), m, path1, mem, path, t, i);
      GrowsEntryTrans(g, old(mem), old(path), m, path1, mem, path, path[t] + [i], level, rem, chunk);
      if ok {
        ExtendsTrans(old(mem), m, mem);
        MapsAfterSame(g, old(mem), m, mem, t, level, i, rem, pa, chunk, attrs);
        PlacedBelow(g, mem, t, level, i, c.value, rem, pa, chunk);
        LackUp(g, old(mem), m, Card(old(pmm.free)), free1, Card(pmm.free), t, level, i, c.value, rem, pa, chunk);
      } else {
        BlockedUp(g, old(mem), m, Card(old(pmm.free)), free1, t, level, i, c.value, rem, pa, chunk);
      }
    }

    /** Map below the table linked from entry `i`. */
    method MapLinked(t: nat, level: nat, i: nat, c: nat, rem: nat, pa: nat, chunk: nat, attrs: nat) returns (ok: bool)
      requires Sound() && At(t, level) && level > 0 && i < |mem[t]| && mem[t][i] == Table(c)
      requires 0 < chunk && rem + chunk <= g.block[level] && Aligned(g, rem, pa, chunk)
      modifies this, pmm
      ensures Sound() && At(t, level) && KeptOutsideEntry(old(mem), old(path), mem, path, t, i)
      ensures Pages() == old(Pages()) && pmm.pages == old(pmm.pages)
      ensures ok ==> MapsEntry(g, old(mem), mem, t, level, i, rem, pa, chunk, attrs)
      ensures ok ==> Card(pmm.free) + Lack(g, old(mem), c, level - 1, rem, pa, chunk) == Card(old(pmm.free))
      ensures !ok ==> SameWalk(g, old(mem), mem, t, level)
      ensures ok <==> !Blocked(g, old(mem), Card(old(pmm.free)), c, level - 1, rem, pa, chunk)
      ensures GrowsEntry(g, old(mem), old(path), mem, path, path[t] + [i], level, rem, chunk)
      ensures ok ==> Extends(old(mem), mem) && Placed(g, mem, c, level - 1, rem, pa, chunk) && mem[t] == old(mem)[t]
      decreases level, 0
    {
      assert Child(g, mem, path, up, t, i);
      assert At(c, level - 1) && |mem[c]| == g.entries;
      assert Fits(rem, chunk, g.block[level - 1], |mem[c]|) by {
        FitsBelow(g, level, rem, chunk);
      }
      var st := MapPt(c, level - 1, rem, pa, chunk, attrs);
      ok := st == NoError;
      KeptChild(old(mem), old(path), mem, path, t, i, c);
      GrowsBelow(g, old(mem), old(path), mem, path, path[t] + [i], level, rem, chunk);
      if ok {
        MapsBelow(g, old(mem), old(path), old(up), mem, path, t, level, i, c, rem, pa, chunk, attrs);
      } else {
        SameBelow(g, old(mem), old(path), old(up), mem, path, t, level, i, c);
      }
    }

    /** One turn of that loop: a table if the chunk is not a whole aligned block, a leaf otherwise. */
    method MapEntry(t: nat, level: nat, i: nat, rem: nat, pa: nat, chunk: nat, attrs: nat) returns (ok: bool)
      requires Sound() && At(t, level) && i < |mem[t]|
      requires 0 < chunk && rem + chunk <= g.block[level] && Aligned(g, rem, pa, chunk)
      modifies this, pmm
      ensures Sound() && At(t, level) && KeptOutsideEntry(old(mem), old(path), mem, path, t, i)
      ensures Pages() == old(Pages()) && pmm.pages == old(pmm.pages)
      ensures ok ==> MapsEntry(g, old(mem), mem, t, level, i, rem, pa, chunk, attrs)
      ensures ok ==> Card(pmm.free) + LackEntry(g, old(mem), t, level, i, rem, pa, chunk) == Card(old(pmm.free))
      ensures ok ==> !InWayEntry(g, old(mem), t, level, i, rem, pa, chunk)
      ensures !ok ==> SameWalk(g, old(mem), mem, t, level)
      ensures !ok ==> EntryBlocked(g, old(mem), Card(old(pmm.free)), t, level, i, rem, pa, chunk)
      ensures GrowsEntry(g, old(mem), old(path), mem, path, path[t] + [i], level, rem, chunk)
      ensures ok ==> Extends(old(mem), mem) && PlacedEntry(g, mem, t, level, i, rem, pa, chunk)
      ensures && rem == 0 && chunk == g.block[level] <= g.blockMax && Mod(pa, g.block[level]) == 0
              && old(mem)[t][i].Invalid?
              ==> ok && mem == old(mem)[t := old(mem)[t][i := Leaf(pa, attrs)]] && pmm.free == old(pmm.free)
      decreases level, 2
    {
      GrowsSelf(g, mem, path, path[t] + [i], level, rem, chunk);
      if !WholeBlock(g, level, rem, pa, chunk) {
        ok := MapTable(t, level, i, rem, pa, chunk, attrs);
      } else if !mem[t][i].Invalid? {
        if mem[t][i].Leaf? {
          LeafBlocks(g, mem, Card(pmm.free), t, level, i, rem, pa, chunk);
        } else {
          assert InWayEntry(g, mem, t, level, i, rem, pa, chunk);
        }
        ok := false;
      } else {
        SetEntry(g, mem, path, up, t, i, Leaf(pa, attrs));
        LeafMaps(g, mem, path, up, t, level, i, pa, attrs);
        GrowsSet(g, mem, path, t, i, Leaf(pa, attrs), level, rem, chunk);
        mem := mem[t := mem[t][i := Leaf(pa, attrs)]];
        LeafPlaced(g, mem, t, level, i, pa, attrs);
        ok := true;
      }
    }

    /** The error exit of arm64_mmu_map_pt: unmap the part that is done. */
    method Rollback(t: nat, level: nat, v: nat, pa: nat, n: nat, attrs: nat, ghost m0: Memory, ghost path0: Paths)
      requires Sound() && At(t, level) && Fits(v, n, g.block[level], |mem[t]|)
      requires m0.Keys == path0.Keys && t in m0 && KeptOutside(m0, path0, mem, path, t)
      requires Maps(g, m0, mem, t, level, v, pa, n, attrs)
      modifies this, pmm
      ensures Sound() && At(t, level) && KeptOutside(m0, path0, mem, path, t)
      ensures Pages() == old(Pages()) && pmm.pages == old(pmm.pages)
      ensures SameWalk(g, m0, mem, t, level) && Shrinks(old(mem), old(path), mem, path)
    {
      UnmapPt(t, level, v, n);
      KeptTrans(m0, path0, old(mem), old(path), mem, path, t);
      RollbackRestores(g, m0, old(mem), mem, t, level, v, pa, n, attrs);
    }

    /** arm64_mmu_map_pt.  On success the walk is the old one overridden by `[v, v + size) -> pa`, and
        nothing in that range was mapped.  On failure every address walks as before. */
    method MapPt(t: nat, level: nat, v: nat, pa: nat, size: nat, attrs: nat) returns (st: Status)
      requires Sound() && At(t, level) && Fits(v, size, g.block[level], |mem[t]|)
      modifies this, pmm
      ensures Sound() && At(t, level) && KeptOutside(old(mem), old(path), mem, path, t)
      ensures Pages() == old(Pages()) && pmm.pages == old(pmm.pages)
      ensures st == NoError || st == ErrInvalidArgs || st == ErrGeneric
      ensures st == ErrInvalidArgs <==> !Aligned(g, v, pa, size)
      ensures st == ErrInvalidArgs ==> mem == old(mem) && pmm.free == old(pmm.free)
      ensures st == NoError ==> Maps(g, old(mem), mem, t, level, v, pa, size, attrs)
      ensures st == NoError ==> Card(pmm.free) + Lack(g, old(mem), t, level, v, pa, size) == Card(old(pmm.free))
      ensures st != NoError ==> SameWalk(g, old(mem), mem, t, level)
      ensures st != ErrInvalidArgs ==>
                (st == ErrGeneric <==> Blocked(g, old(mem), Card(old(pmm.free)), t, level, v, pa, size))
      ensures Grows(g, old(mem), old(path), mem, path, path[t], level, v, size)
      ensures st == NoError ==> Extends(old(mem), mem) && Placed(g, mem, t, level, v, pa, size)
      decreases level, 4
    {
      GrowsSelf(g, mem, path, path[t], level, v, size);
      if !Aligned(g, v, pa, size) {
        return ErrInvalidArgs;
      }
      var n := 0;
      while n < size
        invariant n <= size && Sound() && At(t, level) && |mem[t]| == |old(mem)[t]|
        invariant Pages() == old(Pages()) && pmm.pages == old(pmm.pages)
        invariant MapDone(g, old(mem), old(path), mem, path, t, level, v, pa, n, size, attrs)
        invariant Spent(g, old(mem), Card(old(pmm.free)), Card(pmm.free), t, level, v, pa, n, size)
      {
        var ok, n' := MapStep(t, level, v, pa, n, size, attrs, old(mem), old(path), old(up), Card(old(pmm.free)));
        if !ok {
          FitsPart(v, n, size, g.block[level], |mem[t]|);
          ghost var m, path1 := mem, path;
          Rollback(t, level, v, pa, n, attrs, old(mem), old(path));
          GrowsShrinks(g, old(mem), old(path), m, path1, mem, path, path[t], level, v, size);
          return ErrGeneric;
        }
        n := n';
      }
      assert !Blocked(g, old(mem), Card(old(pmm.free)), t, level, v, pa, size);
      return NoError;
    }

    /** Find the entry for the next chunk and map that. */
    method MapStep(t: nat, level: nat, v: nat, pa: nat, n: nat, size: nat, attrs: nat, ghost m0: Memory,
                   ghost path0: Paths, ghost up0: Parents, ghost free0: nat)
      returns (ok: bool, n': nat)
      requires Sound() && At(t, level) && Fits(v, size, g.block[level], |mem[t]|) && n < size
      requires Aligned(g, v, pa, size) && Tree(g, m0, path0, up0) && t in m0
      requires MapDone(g, m0, path0, mem, path, t, level, v, pa, n, size, attrs)
      requires Spent(g, m0, free0, Card(pmm.free), t, level, v, pa, n, size)
      modifies this, pmm
      ensures Sound() && At(t, level) && |mem[t]| == |old(mem)[t]|
      ensures Pages() == old(Pages()) && pmm.pages == old(pmm.pages)
      ensures ok ==> n < n' <= size && MapDone(g, m0, path0, mem, path, t, level, v, pa, n', size, attrs)
      ensures ok ==> Spent(g, m0, free0, Card(pmm.free), t, level, v, pa, n', size)
      ensures !ok ==> Blocked(g, m0, free0, t, level, v, pa, size)
      ensures !ok ==> KeptOutside(m0, path0, mem, path, t) && Maps(g, m0, mem, t, level, v, pa, n, attrs)
      ensures !ok ==> Grows(g, m0, path0, mem, path, path0[t], level, v, size)
      decreases level, 3
    {
      var b := g.block[level];
      var rem, i, chunk := Mod(v + n, b), Div(v + n, b), Chunk(v + n, size - n, b);
      assert i < |mem[t]| by {
        DivMono(v + n, v + size - 1, b);
      }
      assert Aligned(g, rem, pa + n, chunk) by {
        ChunkAligned(g, level, v, pa, n, size);
      }
      n' := n + chunk;
      ok := MapEntry(t, level, i, rem, pa + n, chunk, attrs);
      if ok {
        StepMade(g, m0, path0, up0, old(mem), old(path), mem, path, t, level, v, pa, n, n', size, attrs,
                 free0, Card(old(pmm.free)), Card(pmm.free), i, rem, chunk);
        return;
      } else {
        StepStopped(g, m0, path0, up0, old(mem), old(path), mem, path, t, level, v, pa, n, size, attrs,
                    free0, Card(old(pmm.free)), i, rem, chunk);
        return;
      }
    }

    /** arch_mmu_query, for an address `rel` bytes above the base: the loop follows the links down. */
    method Query(rel: nat) returns (x: Xlat)
      requires Valid() && Div(rel, g.block[g.Top()]) < g.topEntries
      ensures x == Walk(g, mem, g.root, g.Top(), rel)
    {
      assert TreeFrom(g, mem, path, up, g.root);
      var t, level, r := g.root, g.Top(), rel;
      while true
        invariant At(t, level) && Div(r, g.block[level]) < |mem[t]|
        invariant Walk(g, mem, t, level, r) == Walk(g, mem, g.root, g.Top(), rel)
        decreases level
      {
        var i := Div(r, g.block[level]);
        match mem[t][i]
        case Invalid =>
          return Fault;
        case Leaf(pa, attrs) =>
          return Hit(pa, attrs, Mod(r, g.block[level]), g.block[level]);
        case Table(c) =>
          assert Child(g, mem, path, up, t, i);
          r := Mod(r, g.block[level]);
          FitsBelow(g, level, r, 1);
          t, level := c, level - 1;
      }
    }

    /** arm64_mmu_map on the range of `size` bytes at `vaddr`, with 64-bit wrap-around in the range check;
        `rel` is where the range starts, relative to the base. */
    method Map(vaddr: nat, pa: nat, size: nat, attrs: nat, base: nat, limit: nat, ghost rel: nat) returns (st: Status)
      requires Valid() && vaddr < WORD && size < WORD && base < WORD && limit < WORD && rel == (vaddr - base) % WORD
      requires limit == g.block[g.Top()] * g.topEntries
      modifies this, pmm
      ensures Valid() && Pages() == old(Pages()) && pmm.pages == old(pmm.pages)
      ensures st == ErrInvalidArgs <==> rel + size > limit || !Aligned(g, rel, pa, size)
      ensures st == NoError ==> Maps(g, old(mem), mem, g.root, g.Top(), rel, pa, size, attrs)
      ensures st != ErrInvalidArgs ==>
                (st == ErrGeneric <==> Blocked(g, old(mem), Card(old(pmm.free)), g.root, g.Top(), rel, pa, size))
      ensures st == NoError ==>
                Card(pmm.free) + Lack(g, old(mem), g.root, g.Top(), rel, pa, size) == Card(old(pmm.free))
      ensures st == NoError || st == ErrInvalidArgs || st == ErrGeneric
      ensures st != NoError ==> SameWalk(g, old(mem), mem, g.root, g.Top())
      ensures Grows(g, old(mem), old(path), mem, path, [], g.Top(), rel, size)
      ensures st == NoError ==> Extends(old(mem), mem) && Placed(g, mem, g.root, g.Top(), rel, pa, size)
    {
      GrowsSelf(g, mem, path, [], g.Top(), rel, size);
      var off := (vaddr - base) % WORD;
      RangeCheck(off, size, limit);
      if off > (limit - size) % WORD || size > limit {
        return ErrInvalidArgs;
      }
      st := MapInside(off, pa, size, attrs, limit);
    }

    /** arm64_mmu_map after the range check. */
    method MapInside(rel: nat, pa: nat, size: nat, attrs: nat, ghost limit: nat) returns (st: Status)
      requires Valid() && rel + size <= limit && limit == g.block[g.Top()] * g.topEntries
      modifies this, pmm
      ensures Valid() && Pages() == old(Pages()) && pmm.pages == old(pmm.pages)
      ensures st == ErrInvalidArgs <==> !Aligned(g, rel, pa, size)
      ensures st == NoError ==> Maps(g, old(mem), mem, g.root, g.Top(), rel, pa, size, attrs)
      ensures st != ErrInvalidArgs ==>
                (st == ErrGeneric <==> Blocked(g, old(mem), Card(old(pmm.free)), g.root, g.Top(), rel, pa, size))
      ensures st == NoError ==>
                Card(pmm.free) + Lack(g, old(mem), g.root, g.Top(), rel, pa, size) == Card(old(pmm.free))
      ensures st == NoError || st == ErrInvalidArgs || st == ErrGeneric
      ensures st != NoError ==> SameWalk(g, old(mem), mem, g.root, g.Top())
      ensures Grows(g, old(mem), old(path), mem, path, [], g.Top(), rel, size)
      ensures st == NoError ==> Extends(old(mem), mem) && Placed(g, mem, g.root, g.Top(), rel, pa, size)
    {
      assert TreeFrom(g, mem, path, up, g.root);
      FitsLimit(rel, size, g.block[g.Top()], g.topEntries);
      st := MapPt(g.root, g.Top(), rel, pa, size, attrs);
      if st == NoError {
        FittedMapped(g, old(mem), mem, g.root, g.Top(), rel, pa, size, attrs);
      } else {
        FittedSame(g, old(mem), mem, g.root, g.Top());
      }
    }

    /** arm64_mmu_unmap */
    method Unmap(vaddr: nat, size: nat, base: nat, limit: nat, ghost rel: nat) returns (st: Status)
      requires Valid() && vaddr < WORD && size < WORD && base < WORD && limit < WORD && rel == (vaddr - base) % WORD
      requires limit == g.block[g.Top()] * g.topEntries
      modifies this, pmm
      ensures Valid() && Pages() == old(Pages()) && pmm.pages == old(pmm.pages)
      ensures if rel + size > limit
              then st == ErrInvalidArgs && mem == old(mem) && path == old(path) && pmm.free == old(pmm.free)
              else && st == NoError && Unmaps(g, old(mem), mem, g.root, g.Top(), rel, size)
                   && Shrinks(old(mem), old(path), mem, path) && Tidy(g, mem, path, [], g.Top(), rel, size)
    {
      assert TreeFrom(g, mem, path, up, g.root);
      var off := (vaddr - base) % WORD;
      RangeCheck(off, size, limit);
      if off > (limit - size) % WORD || size > limit {
        return ErrInvalidArgs;
      }
      FitsLimit(off, size, g.block[g.Top()], g.topEntries);
      UnmapPt(g.root, g.Top(), off, size);
      FittedUnmapped(g, old(mem), mem, g.root, g.Top(), off, size);
      return NoError;
    }

    /** Unmapping a range just mapped restores every translation and frees every table made for it. */
    method MapThenUnmap(vaddr: nat, pa: nat, size: nat, attrs: nat, base: nat, limit: nat) returns (st: Status)
      requires Valid() && vaddr < WORD && size < WORD && base < WORD && limit < WORD
      requires limit == g.block[g.Top()] * g.topEntries
      modifies this, pmm
      ensures Valid() && Pages() == old(Pages()) && SameWalk(g, old(mem), mem, g.root, g.Top())
      ensures st == NoError ==> mem.Keys <= old(mem).Keys && old(pmm.free) <= pmm.free
    {
      assert TreeFrom(g, mem, path, up, g.root);
      ghost var rel := (vaddr - base) % WORD;
      st := Map(vaddr, pa, size, attrs, base, limit, rel);
      if st == NoError {
        ghost var m, path1 := mem, path;
        assert TreeFrom(g, mem, path, up, g.root);
        st := Unmap(vaddr, size, base, limit, rel);
        RollbackRestores(g, old(mem), m, mem, g.root, g.Top(), rel, pa, size, attrs);
        assert TreeFrom(g, mem, path, up, g.root);
        NoneLeft(g, old(mem), old(path), old(up), m, path1, mem, path, up, rel, size);
        FreeBack(mem.Keys, pmm.free, old(mem).Keys, old(pmm.free));
      }
    }
  }

  /** Fewer tables out of the same pages leave more of them free. */
  lemma FreeBack(tables: set<nat>, free: set<nat>, tables0: set<nat>, free0: set<nat>)
    requires tables + free == tables0 + free0 && tables <= tables0 && tables0 !! free0
    ensures free0 <= free
  {
    forall p | p in free0 ensures p in free {
      assert p in tables + free;
    }
  }
}
