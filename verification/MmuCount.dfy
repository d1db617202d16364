/** How many table pages a mapping takes (arch/arm64/mmu.c), worked out from the tables as they are before it. */
module MmuCount {
  import opened Arith
  import opened MmuTree

  /** How much of `size` bytes at `x` lies in the block of `x`. */
  function Chunk(x: nat, size: nat, b: nat): (c: nat)
    requires b > 0
    ensures c <= size && c <= b - Mod(x, b) && (size > 0 ==> c > 0)
  {
    if size < b - Mod(x, b) then size else b - Mod(x, b)
  }

  /** The test of arm64_mmu_map_pt for a leaf: the chunk is a whole block that is aligned and not too large. */
  predicate WholeBlock(g: Geometry, level: nat, rem: nat, pa: nat, chunk: nat)
    requires level < |g.block| && g.block[level] > 0
  {
    rem == 0 && Mod(pa, g.block[level]) == 0 && chunk == g.block[level] && g.block[level] <= g.blockMax
  }

  /** The table that entry `i` of `t` links, if there is one. */
  ghost function Next(m: Memory, t: nat, i: nat): Option<nat> {
    if t in m && i < |m[t]| && m[t][i].Table? then Some(m[t][i].next) else None
  }

  /** Tables missing under `t` for a mapping of `size` bytes at `v`, `rel` bytes into what `t` covers, to `pa`.  A table
      that is not there is one in a memory without tables. */
  ghost function Lack(g: Geometry, m: Memory, t: nat, level: nat, v: nat, pa: nat, size: nat): nat
    requires g.Valid() && level < |g.block|
    decreases level, 1, size
  {
    if size == 0 then 0
    else
      var b, c := g.block[level], Chunk(v, size, g.block[level]);
      LackEntry(g, m, t, level, Div(v, b), Mod(v, b), pa, c) + Lack(g, m, t, level, v + c, pa + c, size - c)
  }

  /** Tables missing at and under entry `i` of `t` for the part `[rem, rem + chunk)` of it. */
  ghost function LackEntry(g: Geometry, m: Memory, t: nat, level: nat, i: nat, rem: nat, pa: nat, chunk: nat): nat
    requires g.Valid() && level < |g.block|
    decreases level, 0, 0
  {
    if level == 0 || WholeBlock(g, level, rem, pa, chunk) then 0
    else match Next(m, t, i)
      case Some(c) => Lack(g, m, c, level - 1, rem, pa, chunk)
      case None => 1 + Lack(g, map[], 0, level - 1, rem, pa, chunk)
  }

  /** A table is linked where the mapping would put a whole block. */
  ghost predicate InWay(g: Geometry, m: Memory, t: nat, level: nat, v: nat, pa: nat, size: nat)
    requires g.Valid() && level < |g.block|
    decreases level, 1, size
  {
    && size > 0
    && var b, c := g.block[level], Chunk(v, size, g.block[level]);
       || InWayEntry(g, m, t, level, Div(v, b), Mod(v, b), pa, c)
       || InWay(g, m, t, level, v + c, pa + c, size - c)
  }

  ghost predicate InWayEntry(g: Geometry, m: Memory, t: nat, level: nat, i: nat, rem: nat, pa: nat, chunk: nat)
    requires g.Valid() && level < |g.block|
    decreases level, 0, 0
  {
    match Next(m, t, i)
    case None => false
    case Some(c) => WholeBlock(g, level, rem, pa, chunk) || (level > 0 && InWay(g, m, c, level - 1, rem, pa, chunk))
  }

  /** What is missing or in the way under `t` depends only on the tables under `t`. */
  lemma {:induction false} LackFrame(g: Geometry, m: Memory, path: Paths, up: Parents, m': Memory, t: nat, level: nat,
                                     v: nat, pa: nat, size: nat)
    requires g.Valid() && Tree(g, m, path, up) && t in m && level == g.Top() - |path[t]|
    requires forall s :: s in m && Under(path, t, s) ==> s in m' && m'[s] == m[s]
    ensures Lack(g, m', t, level, v, pa, size) == Lack(g, m, t, level, v, pa, size)
    ensures InWay(g, m', t, level, v, pa, size) == InWay(g, m, t, level, v, pa, size)
    decreases level, 1, size
  {
    if size > 0 {
      var b, c := g.block[level], Chunk(v, size, g.block[level]);
      assert Under(path, t, t);
      LackEntryFrame(g, m, path, up, m', t, level, Div(v, b), Mod(v, b), pa, c);
      LackFrame(g, m, path, up, m', t, level, v + c, pa + c, size - c);
    }
  }

  lemma {:induction false} LackEntryFrame(g: Geometry, m: Memory, path: Paths, up: Parents, m': Memory, t: nat,
                                          level: nat, i: nat, rem: nat, pa: nat, chunk: nat)
    requires g.Valid() && Tree(g, m, path, up) && t in m && level == g.Top() - |path[t]|
    requires t in m' && |m'[t]| == |m[t]| && (i < |m[t]| ==> m'[t][i] == m[t][i])
    requires forall s :: s in m && path[t] + [i] <= path[s] ==> s in m' && m'[s] == m[s]
    ensures LackEntry(g, m', t, level, i, rem, pa, chunk) == LackEntry(g, m, t, level, i, rem, pa, chunk)
    ensures InWayEntry(g, m', t, level, i, rem, pa, chunk) == InWayEntry(g, m, t, level, i, rem, pa, chunk)
    decreases level, 0, 0
  {
    if level > 0 && i < |m[t]| && m[t][i].Table? {
      assert Child(g, m, path, up, t, i);
      LackFrame(g, m, path, up, m', m[t][i].next, level - 1, rem, pa, chunk);
    }
  }

  /** Under an empty table everything is missing, and nothing is in the way. */
  lemma {:induction false} LackFresh(g: Geometry, m: Memory, t: nat, level: nat, v: nat, pa: nat, size: nat)
    requires g.Valid() && level < |g.block| && t in m && forall i :: 0 <= i < |m[t]| ==> m[t][i].Invalid?
    ensures Lack(g, m, t, level, v, pa, size) == Lack(g, map[], 0, level, v, pa, size)
    ensures !InWay(g, m, t, level, v, pa, size)
    decreases size
  {
    if size > 0 {
      var c := Chunk(v, size, g.block[level]);
      LackFresh(g, m, t, level, v + c, pa + c, size - c);
    }
  }
}
