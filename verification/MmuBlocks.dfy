/** Which leaves a mapping is made of (arch/arm64/mmu.c): every leaf is aligned to its own size and not too large
    for a block descriptor, and no larger leaf would have fitted. */
module MmuBlocks {
  import opened Arith
  import opened MmuTree

  /** A descriptor can hold this leaf. */
  ghost predicate Fit(g: Geometry, x: Xlat) {
    x.Hit? ==> x.size > 0 && Mod(x.pa, x.size) == 0 && x.size <= g.blockMax
  }

  ghost predicate FitAt(g: Geometry, m: Memory, t: nat, level: nat, rel: nat)
    requires g.Valid() && level < |g.block|
  {
    Fit(g, Walk(g, m, t, level, rel))
  }

  /** Every leaf a walk from `t` can find is one a descriptor can hold. */
  ghost predicate Fitted(g: Geometry, m: Memory, t: nat, level: nat)
    requires g.Valid() && level < |g.block|
  {
    forall rel: nat {:trigger FitAt(g, m, t, level, rel)} :: FitAt(g, m, t, level, rel)
  }

  /** A leaf of level `l` could translate `rel`: its block lies in `[v, v + size)`, goes to an aligned address and is
      not too large. */
  ghost predicate Room(g: Geometry, l: nat, rel: nat, v: nat, pa: nat, size: nat)
    requires g.Valid() && l < |g.block|
  {
    var b, r := g.block[l], Mod(rel, g.block[l]);
    b <= g.blockMax && v + r <= rel && rel + b <= v + size + r && Mod(pa + (rel - r - v), b) == 0
  }

  /** `x` is a leaf for `rel`, and no smaller than any for which there is room. */
  ghost predicate Largest(g: Geometry, x: Xlat, level: nat, rel: nat, v: nat, pa: nat, size: nat)
    requires g.Valid() && level < |g.block|
  {
    x.Hit? && Fit(g, x)
    && forall l: nat {:trigger Room(g, l, rel, v, pa, size)} ::
         l <= level && Room(g, l, rel, v, pa, size) ==> g.block[l] <= x.size
  }

  ghost predicate PlacedAt(g: Geometry, m: Memory, t: nat, level: nat, v: nat, pa: nat, size: nat, rel: nat)
    requires g.Valid() && level < |g.block|
  {
    Largest(g, Walk(g, m, t, level, rel), level, rel, v, pa, size)
  }

  /** `[v, v + size)` is translated by the largest leaves there is room for. */
  ghost predicate Placed(g: Geometry, m: Memory, t: nat, level: nat, v: nat, pa: nat, size: nat)
    requires g.Valid() && level < |g.block|
  {
    forall rel: nat {:trigger PlacedAt(g, m, t, level, v, pa, size, rel)} ::
      v <= rel < v + size ==> PlacedAt(g, m, t, level, v, pa, size, rel)
  }

  ghost predicate PlacedEntryAt(g: Geometry, m: Memory, t: nat, level: nat, rem: nat, pa: nat, chunk: nat, rel: nat)
    requires g.Valid() && level < |g.block|
  {
    Largest(g, Walk(g, m, t, level, rel), level, Mod(rel, g.block[level]), rem, pa, chunk)
  }

  /** The same, for the part `[rem, rem + chunk)` of what entry `i` of `t` covers. */
  ghost predicate PlacedEntry(g: Geometry, m: Memory, t: nat, level: nat, i: nat, rem: nat, pa: nat, chunk: nat)
    requires g.Valid() && level < |g.block|
  {
    forall rel: nat {:trigger PlacedEntryAt(g, m, t, level, rem, pa, chunk, rel)} ::
      Div(rel, g.block[level]) == i && rem <= Mod(rel, g.block[level]) < rem + chunk
      ==> PlacedEntryAt(g, m, t, level, rem, pa, chunk, rel)
  }

  /** Blocks grow with the level, and a larger one is a multiple of a smaller one. */
  lemma {:induction false} BlockNests(g: Geometry, l: nat, level: nat)
    requires g.Valid() && l <= level < |g.block|
    ensures g.block[l] <= g.block[level] && Mod(g.block[level], g.block[l]) == 0
  {
    var b := g.block[l];
    if l == level {
      DivMod(b, b);
      DivModUnique(b, b, 1, 0);
    } else {
      BlockNests(g, l, level - 1);
      assert g.Scaled(level);
      MulMono(g.block[level - 1], 1, g.entries);
      ModMul(g.entries, b, g.block[level - 1]);
    }
  }

  /** The place inside a small block does not depend on the large block around it. */
  lemma ModMod(x: nat, b: nat, n: nat)
    requires n > 0 && b > 0 && Mod(b, n) == 0
    ensures Mod(Mod(x, b), n) == Mod(x, n)
  {
    DivMod(x, b);
    ModMul(Div(x, b), n, b);
    ModAdd(b * Div(x, b), Mod(x, b), n);
  }

  /** A multiple of a multiple. */
  lemma ModOf(x: nat, b: nat, n: nat)
    requires n > 0 && b > 0 && Mod(b, n) == 0 && Mod(x, b) == 0
    ensures Mod(x, n) == 0
  {
    DivMod(x, b);
    ModMul(Div(x, b), n, b);
  }

  /** A block lies on one side of a multiple of its size. */
  lemma OneSide(x: nat, edge: nat, b: nat)
    requires b > 0 && Mod(edge, b) == 0
    ensures x < edge ==> x - Mod(x, b) + b <= edge
    ensures x >= edge ==> x - Mod(x, b) >= edge
  {
    DivMod(edge, b);
    if x < edge {
      BlockRoom(x, b, Div(edge, b));
    } else {
      BlockOrder(edge, x, b);
      DivMono(edge, x, b);
    }
  }

  /** A leaf put into entry `i` for the whole block. */
  lemma LeafPlaced(g: Geometry, m: Memory, t: nat, level: nat, i: nat, pa: nat, attrs: nat)
    requires g.Valid() && level < |g.block| && t in m && i < |m[t]| && m[t][i] == Leaf(pa, attrs)
    requires Mod(pa, g.block[level]) == 0 && g.block[level] <= g.blockMax
    ensures PlacedEntry(g, m, t, level, i, 0, pa, g.block[level])
  {
    var b := g.block[level];
    forall rel: nat | Div(rel, b) == i && 0 <= Mod(rel, b) < b
      ensures PlacedEntryAt(g, m, t, level, 0, pa, b, rel)
    {
      forall l: nat | l <= level && Room(g, l, Mod(rel, b), 0, pa, b) ensures g.block[l] <= b {
        BlockNests(g, l, level);
      }
    }
  }

  /** What is placed below a link is placed, if there was no room for a leaf in the link's entry. */
  lemma PlacedBelow(g: Geometry, m: Memory, t: nat, level: nat, i: nat, c: nat, rem: nat, pa: nat, chunk: nat)
    requires g.Valid() && 0 < level < |g.block| && t in m && i < |m[t]| && m[t][i] == Table(c)
    requires rem + chunk <= g.block[level] && Placed(g, m, c, level - 1, rem, pa, chunk)
    requires !(rem == 0 && Mod(pa, g.block[level]) == 0 && chunk == g.block[level] && g.block[level] <= g.blockMax)
    ensures PlacedEntry(g, m, t, level, i, rem, pa, chunk)
  {
    var b := g.block[level];
    forall rel: nat | Div(rel, b) == i && rem <= Mod(rel, b) < rem + chunk
      ensures PlacedEntryAt(g, m, t, level, rem, pa, chunk, rel)
    {
      var r := Mod(rel, b);
      assert PlacedAt(g, m, c, level - 1, rem, pa, chunk, r);
      assert Walk(g, m, t, level, rel) == Walk(g, m, c, level - 1, r);
      assert Mod(r, b) == r;
      assert !Room(g, level, r, rem, pa, chunk);
    }
  }

  /** Room in `[v, v + n')` for a block of an address before `v + n`, where a block ends, is room in `[v, v + n)`. */
  lemma RoomBefore(g: Geometry, level: nat, l: nat, rel: nat, v: nat, pa: nat, n: nat, n': nat)
    requires g.Valid() && l <= level < |g.block| && Mod(v + n, g.block[level]) == 0 && rel < v + n
    requires Room(g, l, rel, v, pa, n')
    ensures Room(g, l, rel, v, pa, n)
  {
    BlockNests(g, l, level);
    ModOf(v + n, g.block[level], g.block[l]);
    OneSide(rel, v + n, g.block[l]);
  }

  /** Room in the whole range for a block of an address of the last chunk is room in that chunk. */
  lemma RoomInChunk(g: Geometry, level: nat, l: nat, rel: nat, v: nat, pa: nat, n: nat, rem: nat, chunk: nat, r: nat)
    requires g.Valid() && l <= level < |g.block| && (n == 0 || Mod(v + n, g.block[level]) == 0)
    requires rem == Mod(v + n, g.block[level]) && v + n <= rel
    requires r == Mod(rel, g.block[level]) && r == rel - v - n + rem
    requires Room(g, l, rel, v, pa, n + chunk)
    ensures Room(g, l, r, rem, pa + n, chunk)
  {
    var b := g.block[l];
    BlockNests(g, l, level);
    ModMod(rel, g.block[level], b);
    if n > 0 {
      ModOf(v + n, g.block[level], b);
      OneSide(rel, v + n, b);
    }
    assert pa + n + (r - Mod(r, b) - rem) == pa + (rel - Mod(rel, b) - v);
  }

  /** One chunk more: the addresses before it walk as they did. */
  lemma PlacedNext(g: Geometry, m: Memory, m': Memory, t: nat, level: nat, v: nat, pa: nat, n: nat, n': nat, i: nat,
                   rem: nat, chunk: nat)
    requires g.Valid() && level < |g.block| && (n == 0 || Mod(v + n, g.block[level]) == 0)
    requires i == Div(v + n, g.block[level]) && rem == Mod(v + n, g.block[level])
    requires 0 < chunk <= g.block[level] - rem && n' == n + chunk
    requires forall rel: nat :: rel < v + n ==> Walk(g, m', t, level, rel) == Walk(g, m, t, level, rel)
    requires Placed(g, m, t, level, v, pa, n) && PlacedEntry(g, m', t, level, i, rem, pa + n, chunk)
    ensures Placed(g, m', t, level, v, pa, n')
  {
    forall rel: nat | v <= rel < v + n' ensures PlacedAt(g, m', t, level, v, pa, n', rel) {
      if rel < v + n {
        assert PlacedAt(g, m, t, level, v, pa, n, rel);
        forall l: nat | l <= level && Room(g, l, rel, v, pa, n')
          ensures g.block[l] <= Walk(g, m', t, level, rel).size
        {
          RoomBefore(g, level, l, rel, v, pa, n, n');
        }
      } else {
        DivShift(v + n, rel, g.block[level]);
        assert PlacedEntryAt(g, m', t, level, rem, pa + n, chunk, rel);
        forall l: nat | l <= level && Room(g, l, rel, v, pa, n')
          ensures g.block[l] <= Walk(g, m', t, level, rel).size
        {
          RoomInChunk(g, level, l, rel, v, pa, n, rem, chunk, Mod(rel, g.block[level]));
        }
      }
    }
  }

  /** The leaf a walk finds is the block of some level around the address. */
  lemma {:induction false} LeafLevel(g: Geometry, m: Memory, t: nat, level: nat, rel: nat)
    requires g.Valid() && level < |g.block|
    ensures var x := Walk(g, m, t, level, rel);
            x.Hit? ==> exists l: nat :: l <= level && x.size == g.block[l] && x.off == Mod(rel, g.block[l])
    decreases level
  {
    var b := g.block[level];
    var x := Walk(g, m, t, level, rel);
    if x.Hit? {
      if m[t][Div(rel, b)].Table? {
        LeafLevel(g, m, m[t][Div(rel, b)].next, level - 1, Mod(rel, b));
        var l: nat :| l <= level - 1 && x.size == g.block[l] && x.off == Mod(Mod(rel, b), g.block[l]);
        BlockNests(g, l, level);
        ModMod(rel, b, g.block[l]);
      } else {
        assert x.size == g.block[level] && x.off == Mod(rel, g.block[level]);
      }
    }
  }

  /** An address of a mapped range is translated by a leaf of the highest level with room for one. */
  lemma LargestLeaf(g: Geometry, m: Memory, t: nat, level: nat, v: nat, pa: nat, size: nat, rel: nat)
    requires g.Valid() && level < |g.block| && Placed(g, m, t, level, v, pa, size) && v <= rel < v + size
    requires var x := Walk(g, m, t, level, rel);
             x.Hit? ==> x.pa + x.off + v == pa + rel && v + x.off <= rel && rel + x.size <= v + size + x.off
    ensures var x := Walk(g, m, t, level, rel);
            && x.Hit?
            && exists l: nat :: && l <= level && x.size == g.block[l] && Room(g, l, rel, v, pa, size)
                                && forall k: nat :: l < k <= level ==> !Room(g, k, rel, v, pa, size)
  {
    var x := Walk(g, m, t, level, rel);
    assert PlacedAt(g, m, t, level, v, pa, size, rel);
    LeafLevel(g, m, t, level, rel);
    var l: nat :| l <= level && x.size == g.block[l] && x.off == Mod(rel, g.block[l]);
    assert x.pa == pa + (rel - Mod(rel, g.block[l]) - v);
    assert Room(g, l, rel, v, pa, size);
    forall k: nat | l < k <= level ensures !Room(g, k, rel, v, pa, size) {
      BlockMore(g, l, k);
    }
  }

  lemma {:induction false} BlockMore(g: Geometry, l: nat, k: nat)
    requires g.Valid() && l < k < |g.block|
    ensures g.block[l] < g.block[k]
  {
    assert g.Scaled(k);
    MulMono(g.block[k - 1], 2, g.entries);
    BlockNests(g, l, k - 1);
  }

  /** What a walk finds in a live table, a walk from the root finds too. */
  lemma {:induction false} FromRoot(g: Geometry, m: Memory, path: Paths, up: Parents, t: nat, level: nat, r: nat)
    requires g.Valid() && Tree(g, m, path, up) && t in m && level == g.Top() - |path[t]|
    requires Div(r, g.block[level]) < |m[t]|
    ensures exists rel: nat :: Walk(g, m, g.root, g.Top(), rel) == Walk(g, m, t, level, r)
    decreases |path[t]|
  {
    if t == g.root {
      assert Walk(g, m, g.root, g.Top(), r) == Walk(g, m, t, level, r);
    } else {
      assert Linked(m, path, up, t);
      var u, i, b := up[t], path[t][|path[t]| - 1], g.block[level + 1];
      assert Child(g, m, path, up, u, i);
      assert r < b by {
        assert g.Scaled(level + 1);
        DivMod(r, g.block[level]);
        MulMono(g.block[level], Div(r, g.block[level]) + 1, g.entries);
      }
      DivMod(b * i + r, b);
      DivModUnique(b * i + r, b, i, r);
      assert Walk(g, m, u, level + 1, b * i + r) == Walk(g, m, t, level, r);
      FromRoot(g, m, path, up, u, level + 1, b * i + r);
    }
  }

  /** So every leaf in a live table is aligned to the block its entry covers, and not too large. */
  lemma LeavesFit(g: Geometry, m: Memory, path: Paths, up: Parents, t: nat, i: nat)
    requires g.Valid() && Tree(g, m, path, up) && Fitted(g, m, g.root, g.Top())
    requires t in m && i < |m[t]| && m[t][i].Leaf?
    ensures var b := g.block[g.Top() - |path[t]|]; b > 0 && Mod(m[t][i].pa, b) == 0 && b <= g.blockMax
  {
    var level := g.Top() - |path[t]|;
    var b := g.block[level];
    DivMod(b * i, b);
    DivModUnique(b * i, b, i, 0);
    FromRoot(g, m, path, up, t, level, b * i);
    var rel: nat :| Walk(g, m, g.root, g.Top(), rel) == Walk(g, m, t, level, b * i);
    assert FitAt(g, m, g.root, g.Top(), rel);
  }
}
