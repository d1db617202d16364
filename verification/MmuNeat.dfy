/** No table without a mapping stays linked: what keeps it so, and what follows for mappings that are undone. */
module MmuNeat {
  import opened Arith
  import opened MmuTree
  import opened MmuTidy
  import opened MmuCount
  import opened Mmu

  /** Every table below the root is on the way to some address that is mapped. */
  ghost predicate Neat(g: Geometry, m: Memory, path: Paths)
    requires g.Valid()
  {
    forall c {:trigger UsedAt(g, m, path, c)} :: c in m && c != g.root ==> UsedAt(g, m, path, c)
  }

  ghost predicate UsedAt(g: Geometry, m: Memory, path: Paths, c: nat)
    requires g.Valid()
  {
    exists rel: nat :: Uses(g, m, Of(path, c), rel)
  }

  /** The address is mapped and its walk goes through the entries `q`. */
  ghost predicate Uses(g: Geometry, m: Memory, q: seq<nat>, rel: nat)
    requires g.Valid()
  {
    On(g, g.Top(), q, rel) && Walk(g, m, g.root, g.Top(), rel).Hit?
  }

  /** The offset of `rel` in what the table reached through the entries `q` covers. */
  ghost function Into(g: Geometry, level: nat, q: seq<nat>, rel: nat): nat
    requires g.Valid() && level < |g.block| && |q| <= level
  {
    if q == [] then rel else Into(g, level - 1, q[1..], Mod(rel, g.block[level]))
  }

  /** A walk through the entries `q` is a walk from the table they lead to. */
  lemma {:induction false} WalkVia(g: Geometry, m: Memory, path: Paths, up: Parents, t: nat, level: nat, q: seq<nat>,
                                   s: nat, rel: nat)
    requires g.Valid() && Tree(g, m, path, up) && t in m && s in m && level == g.Top() - |path[t]|
    requires path[s] == path[t] + q && On(g, level, q, rel)
    ensures |q| <= level && Walk(g, m, t, level, rel) == Walk(g, m, s, level - |q|, Into(g, level, q, rel))
    decreases |q|
  {
    if q == [] {
      assert path[t] == path[s];
      assert SamePath(path, s, t);
    } else {
      assert path[t] + [q[0]] <= path[s];
      LinkedThrough(g, m, path, up, t, q[0], s);
      assert Child(g, m, path, up, t, q[0]);
      var c := m[t][q[0]].next;
      assert path[c] + q[1..] == path[t] + q;
      WalkVia(g, m, path, up, c, level - 1, q[1..], s, Mod(rel, g.block[level]));
    }
  }

  lemma {:induction false} OnSnoc(g: Geometry, level: nat, q: seq<nat>, j: nat, rel: nat)
    requires g.Valid() && level < |g.block| && |q| <= level
    ensures On(g, level, q + [j], rel) <==>
            On(g, level, q, rel) && Div(Into(g, level, q, rel), g.block[level - |q|]) == j
    decreases |q|
  {
    if q != [] {
      assert (q + [j])[0] == q[0] && (q + [j])[1..] == q[1..] + [j];
      OnSnoc(g, level - 1, q[1..], j, Mod(rel, g.block[level]));
    }
  }

  /** Some address walks through the entries `q`. */
  lemma {:induction false} AddressOf(g: Geometry, level: nat, q: seq<nat>) returns (rel: nat)
    requires g.Valid() && level < |g.block| && 0 < |q| <= level + 1
    requires forall k :: 0 < k < |q| ==> q[k] < g.entries
    ensures On(g, level, q, rel)
    decreases |q|
  {
    var b := g.block[level];
    var r := 0;
    if |q| > 1 {
      r := AddressOf(g, level - 1, q[1..]);
      assert g.Scaled(level);
      BelowLimit(r, g.block[level - 1], g.entries);
    }
    rel := b * q[0] + r;
    BlockAddr(q[0], r, b);
  }

  lemma {:induction false} PathBound(g: Geometry, m: Memory, path: Paths, up: Parents, c: nat, k: nat)
    requires g.Valid() && Tree(g, m, path, up) && c in m && 0 < k < |path[c]|
    ensures path[c][k] < g.entries
    decreases |path[c]|
  {
    assert Linked(m, path, up, c);
    if k < |path[c]| - 1 {
      PathBound(g, m, path, up, up[c], k);
    }
  }

  /** A walk that ends in entry `j` of table `s`. */
  lemma WalkEnds(g: Geometry, m: Memory, path: Paths, up: Parents, s: nat, j: nat, rel: nat)
    requires g.Valid() && Tree(g, m, path, up) && s in m && On(g, g.Top(), path[s] + [j], rel)
    ensures InUse(m, s, j) && m[s][j].Leaf? ==> Walk(g, m, g.root, g.Top(), rel).Hit?
    ensures !InUse(m, s, j) ==> Walk(g, m, g.root, g.Top(), rel) == Fault
  {
    OnSnoc(g, g.Top(), path[s], j, rel);
    assert path[g.root] + path[s] == path[s];
    WalkVia(g, m, path, up, g.root, g.Top(), path[s], s, rel);
  }

  /** A leaf maps some address. */
  lemma LeafUsed(g: Geometry, m: Memory, path: Paths, up: Parents, s: nat, j: nat) returns (rel: nat)
    requires g.Valid() && Tree(g, m, path, up) && InUse(m, s, j) && m[s][j].Leaf?
    ensures Uses(g, m, path[s] + [j], rel)
  {
    var q := path[s] + [j];
    forall k | 0 < k < |q| ensures q[k] < g.entries {
      if k < |path[s]| {
        PathBound(g, m, path, up, s, k);
      }
    }
    rel := AddressOf(g, g.Top(), q);
    WalkEnds(g, m, path, up, s, j, rel);
  }

  /** What uses an entry uses the table it is in. */
  lemma UsesTable(g: Geometry, m: Memory, path: Paths, s: nat, j: nat, rel: nat)
    requires g.Valid() && s in path && |path[s]| <= g.Top() && Uses(g, m, path[s] + [j], rel)
    ensures UsedAt(g, m, path, s)
  {
    OnSnoc(g, g.Top(), path[s], j, rel);
    assert Uses(g, m, Of(path, s), rel);
  }

  /** A table of `m` that is not in `m0` was linked on the range. */
  lemma NewTouches(g: Geometry, m0: Memory, path0: Paths, up0: Parents, m: Memory, path: Paths, up: Parents, v: nat,
                   size: nat, c: nat)
    requires g.Valid() && Tree(g, m0, path0, up0) && Tree(g, m, path, up)
    requires Grows(g, m0, path0, m, path, [], g.Top(), v, size) && c in m && c !in m0
    ensures Touch(g, g.Top(), path[c], v, size)
  {
    assert Linked(m, path, up, c);
    var t, n := up[c], |path[c]|;
    var j := path[c][n - 1];
    assert path[c] == path[t] + [j] && (path[t] + [j])[0..] == path[c];
    assert InUse(m, t, j) && GrowsAt(g, m0, m, path, [], g.Top(), v, size, t, j);
    OldLinks(g, m0, path0, up0);
  }

  /** Mapping a range that ends mapped leaves no table without a mapping. */
  lemma NeatMapped(g: Geometry, m0: Memory, path0: Paths, up0: Parents, m: Memory, path: Paths, up: Parents, v: nat,
                   size: nat)
    requires g.Valid() && Tree(g, m0, path0, up0) && Tree(g, m, path, up) && Neat(g, m0, path0)
    requires Grows(g, m0, path0, m, path, [], g.Top(), v, size)
    requires forall rel: nat :: Walk(g, m0, g.root, g.Top(), rel).Hit? || v <= rel < v + size
                                ==> Walk(g, m, g.root, g.Top(), rel).Hit?
    ensures Neat(g, m, path)
  {
    forall c | c in m && c != g.root ensures UsedAt(g, m, path, c) {
      if c in m0 {
        assert UsedAt(g, m0, path0, c);
        var rel: nat :| Uses(g, m0, Of(path0, c), rel);
        assert Uses(g, m, Of(path, c), rel);
      } else {
        NewTouches(g, m0, path0, up0, m, path, up, v, size, c);
        var rel: nat :| v <= rel < v + size && On(g, g.Top(), path[c], rel);
        assert Uses(g, m, Of(path, c), rel);
      }
    }
  }

  /** So does unmapping a range that mappings do not straddle: a table that was used for the range only would be
      empty. */
  lemma {:induction false} StillUsed(g: Geometry, m: Memory, path: Paths, m': Memory, path': Paths, up': Parents,
                                     v: nat, size: nat, c: nat)
    requires g.Valid() && m.Keys == path.Keys && Tree(g, m', path', up') && Neat(g, m, path) && c in m' && c != g.root
    requires Shrinks(m, path, m', path') && Tidy(g, m', path', [], g.Top(), v, size)
    requires RemovesExactly(g, m, m', g.root, g.Top(), v, size)
    ensures UsedAt(g, m', path', c)
    decreases g.Top() - |path'[c]|
  {
    assert ShrinksAt(m, path, m', path', c) && UsedAt(g, m, path, c);
    var rel: nat :| Uses(g, m, Of(path, c), rel);
    if v <= rel < v + size {
      NotEmptied(g, m', path', up', v, size, c, rel);
      var j: nat :| InUse(m', c, j);
      if m'[c][j].Leaf? {
        var r := LeafUsed(g, m', path', up', c, j);
        UsesTable(g, m', path', c, j, r);
      } else {
        assert Child(g, m', path', up', c, j);
        var d := m'[c][j].next;
        StillUsed(g, m, path, m', path', up', v, size, d);
        var r: nat :| Uses(g, m', Of(path', d), r);
        UsesTable(g, m', path', c, j, r);
      }
    } else {
      assert Uses(g, m', Of(path', c), rel);
    }
  }

  lemma NotEmptied(g: Geometry, m: Memory, path: Paths, up: Parents, v: nat, size: nat, c: nat, rel: nat)
    requires g.Valid() && Tree(g, m, path, up) && Tidy(g, m, path, [], g.Top(), v, size) && c in m && c != g.root
    requires v <= rel < v + size && On(g, g.Top(), path[c], rel)
    ensures exists j: nat :: InUse(m, c, j)
  {
    assert Linked(m, path, up, c);
    var t, j := up[c], path[c][|path[c]| - 1];
    assert path[t] + [j] == path[c] && (path[t] + [j])[0..] == path[c];
    assert InUse(m, t, j) && TidyAt(g, m, path, [], g.Top(), v, size, t, j);
    assert Touch(g, g.Top(), path[c], v, size);
    var k :| 0 <= k < |m[c]| && !m[c][k].Invalid?;
    assert InUse(m, c, k);
  }

  lemma NeatUnmapped(g: Geometry, m: Memory, path: Paths, m': Memory, path': Paths, up': Parents, v: nat, size: nat)
    requires g.Valid() && m.Keys == path.Keys && Tree(g, m', path', up') && Neat(g, m, path)
    requires Shrinks(m, path, m', path') && Tidy(g, m', path', [], g.Top(), v, size)
    requires RemovesExactly(g, m, m', g.root, g.Top(), v, size)
    ensures Neat(g, m', path')
  {
    forall c | c in m' && c != g.root ensures UsedAt(g, m', path', c) {
      StillUsed(g, m, path, m', path', up', v, size, c);
    }
  }

  /** A table in use is not lost while every translation stays. */
  lemma {:induction false} StillThere(g: Geometry, m0: Memory, path0: Paths, up0: Parents, m: Memory, path: Paths,
                                      up: Parents, v: nat, size: nat, c: nat)
    requires g.Valid() && Tree(g, m0, path0, up0) && Tree(g, m, path, up) && Neat(g, m0, path0) && c in m0
    requires Grows(g, m0, path0, m, path, [], g.Top(), v, size) && SameWalk(g, m0, m, g.root, g.Top())
    ensures c in m
    decreases |path0[c]|
  {
    if c != g.root {
      assert Linked(m0, path0, up0, c) && UsedAt(g, m0, path0, c);
      var t, j := up0[c], path0[c][|path0[c]| - 1];
      var rel: nat :| Uses(g, m0, Of(path0, c), rel);
      assert path0[t] + [j] == path0[c];
      StillThere(g, m0, path0, up0, m, path, up, v, size, t);
      assert Of(path, t) == Of(path0, t);
      WalkEnds(g, m, path, up, t, j, rel);
      assert InUse(m, t, j) && GrowsAt(g, m0, m, path, [], g.Top(), v, size, t, j);
      assert InUse(m0, t, j);
      assert Child(g, m, path, up, t, j);
    }
  }

  /** The same for its entries. */
  lemma SameEntries(g: Geometry, m0: Memory, path0: Paths, up0: Parents, m: Memory, path: Paths, up: Parents, v: nat,
                    size: nat, s: nat, j: nat)
    requires g.Valid() && Tree(g, m0, path0, up0) && Tree(g, m, path, up) && Neat(g, m0, path0)
    requires Grows(g, m0, path0, m, path, [], g.Top(), v, size) && SameWalk(g, m0, m, g.root, g.Top())
    requires m.Keys == m0.Keys && s in m && j < |m[s]|
    ensures |m[s]| == |m0[s]| && m[s][j] == m0[s][j]
  {
    assert Of(path, s) == Of(path0, s) && GrowsAt(g, m0, m, path, [], g.Top(), v, size, s, j);
    if InUse(m, s, j) && !InUse(m0, s, j) {
      if m[s][j].Table? {
        assert Child(g, m, path, up, s, j);
      } else {
        var rel := LeafUsed(g, m, path, up, s, j);
        WalkEnds(g, m0, path0, up0, s, j, rel);
      }
    } else if InUse(m0, s, j) && !InUse(m, s, j) {
      var rel;
      if m0[s][j].Table? {
        var c := m0[s][j].next;
        assert Child(g, m0, path0, up0, s, j) && UsedAt(g, m0, path0, c);
        rel :| Uses(g, m0, Of(path0, c), rel);
      } else {
        rel := LeafUsed(g, m0, path0, up0, s, j);
      }
      WalkEnds(g, m, path, up, s, j, rel);
    }
  }

  /** Tables that hold no more tables than before and translate every address as before are the tables as before. */
  lemma Restored(g: Geometry, m0: Memory, path0: Paths, up0: Parents, m: Memory, path: Paths, up: Parents, v: nat,
                 size: nat)
    requires g.Valid() && Tree(g, m0, path0, up0) && Tree(g, m, path, up) && Neat(g, m0, path0)
    requires Grows(g, m0, path0, m, path, [], g.Top(), v, size) && SameWalk(g, m0, m, g.root, g.Top())
    requires m.Keys <= m0.Keys
    ensures m == m0 && path == path0
  {
    forall c | c in m0 ensures c in m {
      StillThere(g, m0, path0, up0, m, path, up, v, size, c);
    }
    assert m.Keys == m0.Keys;
    forall s | s in m ensures m[s] == m0[s] && path[s] == path0[s] {
      assert Of(path, s) == Of(path0, s);
      assert |m[s]| == |m0[s]|;
      forall j | 0 <= j < |m[s]| ensures m[s][j] == m0[s][j] {
        SameEntries(g, m0, path0, up0, m, path, up, v, size, s, j);
      }
    }
  }

  /** In neat tables every table below the root maps something. */
  lemma BusyTable(g: Geometry, m: Memory, path: Paths, up: Parents, c: nat) returns (r: nat)
    requires g.Valid() && Tree(g, m, path, up) && Neat(g, m, path) && c in m && c != g.root
    ensures Walk(g, m, c, g.Top() - |path[c]|, r).Hit?
  {
    assert UsedAt(g, m, path, c);
    var rel: nat :| Uses(g, m, Of(path, c), rel);
    assert path[g.root] + path[c] == path[c];
    WalkVia(g, m, path, up, g.root, g.Top(), path[c], c, rel);
    r := Into(g, g.Top(), path[c], rel);
  }

  lemma HitBelow(g: Geometry, m: Memory, c: nat, level: nat, r: nat)
    requires g.Valid() && 0 < level < |g.block| && c in m && |m[c]| == g.entries
    requires Walk(g, m, c, level - 1, r).Hit?
    ensures r < g.block[level]
  {
    assert g.Scaled(level);
    BelowLimit(r, g.block[level - 1], g.entries);
  }

  /** In neat tables a table where a block would go maps an address of that block. */
  lemma {:induction false} InWayHits(g: Geometry, m: Memory, path: Paths, up: Parents, t: nat, level: nat, v: nat,
                                     pa: nat, size: nat)
    requires g.Valid() && Tree(g, m, path, up) && Neat(g, m, path) && t in m && level == g.Top() - |path[t]|
    requires InWay(g, m, t, level, v, pa, size)
    ensures HitIn(g, m, t, level, v, size)
    decreases level, 1, size
  {
    var b, chunk := g.block[level], Chunk(v, size, g.block[level]);
    if InWayEntry(g, m, t, level, Div(v, b), Mod(v, b), pa, chunk) {
      var r := InWayHitsEntry(g, m, path, up, t, level, Div(v, b), Mod(v, b), pa, chunk);
      DivMod(v, b);
      assert v <= b * Div(v, b) + r < v + size;
    } else {
      InWayHits(g, m, path, up, t, level, v + chunk, pa + chunk, size - chunk);
      var rel: nat :| v + chunk <= rel < v + chunk + (size - chunk) && Walk(g, m, t, level, rel).Hit?;
      assert v <= rel < v + size;
    }
  }

  lemma {:induction false} InWayHitsEntry(g: Geometry, m: Memory, path: Paths, up: Parents, t: nat, level: nat, i: nat,
                                          rem: nat, pa: nat, chunk: nat) returns (r: nat)
    requires g.Valid() && Tree(g, m, path, up) && Neat(g, m, path) && t in m && level == g.Top() - |path[t]|
    requires InWayEntry(g, m, t, level, i, rem, pa, chunk) && rem + chunk <= g.block[level]
    ensures rem <= r < rem + chunk && Walk(g, m, t, level, g.block[level] * i + r).Hit?
    decreases level, 0, 0
  {
    assert Child(g, m, path, up, t, i);
    var c := m[t][i].next;
    if WholeBlock(g, level, rem, pa, chunk) {
      r := BusyTable(g, m, path, up, c);
      HitBelow(g, m, c, level, r);
    } else {
      InWayHits(g, m, path, up, c, level - 1, rem, pa, chunk);
      r :| rem <= r < rem + chunk && Walk(g, m, c, level - 1, r).Hit?;
    }
    BlockAddr(i, r, g.block[level]);
  }
}
