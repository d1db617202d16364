/** ARM64 translation tables as a tree in physical memory (arch/arm64/mmu.c): the descriptor
    walk, the shape every table memory keeps, and what a change to one entry does to the walk. */
module MmuTree {
  import opened Arith

  /** A descriptor.  `Leaf` is a block above the last level and a page on it. */
  datatype Pte = Invalid | Table(next: nat) | Leaf(pa: nat, attrs: nat)

  /** The contents of the live table pages, by physical address. */
  type Memory = map<nat, seq<Pte>>

  /** The indices that lead to a table from the root, and the table that links it. */
  type Paths = map<nat, seq<nat>>
  type Parents = map<nat, nat>

  /** What a walk finds: nothing, or a leaf of `size` bytes at `pa` with the address `off` bytes into it. */
  datatype Xlat = Fault | Hit(pa: nat, attrs: nat, off: nat, size: nat)

  /** The table layout: `block[l]` is the number of bytes one entry covers `l` levels above the last,
      `1 << index_shift`; a table below the top has `entries` descriptors, one page of them. */
  datatype Geometry = Geometry(entries: nat, block: seq<nat>, blockMax: nat, root: nat, topEntries: nat)
  {
    ghost predicate Valid() {
      && entries > 1 && topEntries > 0 && |block| > 0
      && block[0] <= blockMax
      && (forall l :: 0 <= l < |block| ==> block[l] > 0)
      && (forall l {:trigger Scaled(l)} :: 0 < l < |block| ==> Scaled(l))
    }

    /** An entry covers what the table below it covers: `index_shift - (page_size_shift - 3)`. */
    ghost predicate Scaled(l: nat)
      requires 0 < l < |block|
    {
      block[l] == block[l - 1] * entries
    }

    function Top(): nat
      requires |block| > 0
    {
      |block| - 1
    }
  }

  /** The layout for a granule of `1 << pageShift` bytes with `levels` levels below the top table, whose
      `1 << topBits` entries cover the address space; blocks above `1 << 30` bytes are not allowed. */
  function Arm64(pageShift: nat, levels: nat, topBits: nat, root: nat): Geometry
    requires 3 <= pageShift
  {
    Geometry(Pow2(pageShift - 3), seq(levels + 1, (l: nat) => Pow2(IndexShift(pageShift, l))),
             Pow2(30), root, Pow2(topBits))
  }

  /** The `index_shift` `level` levels above the last: each level adds `page_size_shift - 3`. */
  function IndexShift(pageShift: nat, level: nat): nat
    requires 3 <= pageShift
  {
    if level == 0 then pageShift else IndexShift(pageShift, level - 1) + (pageShift - 3)
  }

  lemma Arm64Valid(pageShift: nat, levels: nat, topBits: nat, root: nat)
    requires 3 < pageShift <= 30
    ensures Arm64(pageShift, levels, topBits, root).Valid()
  {
    var g := Arm64(pageShift, levels, topBits, root);
    forall l | 0 < l < |g.block| ensures g.Scaled(l) {
      Arm64Scaled(pageShift, levels, topBits, root, l);
    }
    Pow2Mono(pageShift, 30);
    Pow2Mono(1, pageShift - 3);
  }

  lemma Arm64Scaled(pageShift: nat, levels: nat, topBits: nat, root: nat, l: nat)
    requires 3 < pageShift && 0 < l <= levels
    ensures Arm64(pageShift, levels, topBits, root).Scaled(l)
  {
    Pow2Add(IndexShift(pageShift, l - 1), pageShift - 3);
    assert IndexShift(pageShift, l) == IndexShift(pageShift, l - 1) + (pageShift - 3);
  }

  lemma {:induction false} Pow2Mono(a: nat, b: nat)
    requires a <= b
    ensures Pow2(a) <= Pow2(b)
  {
    if a < b {
      Pow2Mono(a, b - 1);
    }
  }

  /** The walk of arch_mmu_query from table `t`, for the address `rel` bytes into what `t` covers. */
  ghost function Walk(g: Geometry, m: Memory, t: nat, level: nat, rel: nat): Xlat
    requires g.Valid() && level < |g.block|
    decreases level
  {
    var b := g.block[level];
    if t !in m || Div(rel, b) >= |m[t]| then Fault
    else match m[t][Div(rel, b)]
      case Invalid => Fault
      case Leaf(pa, attrs) => Hit(pa, attrs, Mod(rel, b), b)
      case Table(c) => if level == 0 then Fault else Walk(g, m, c, level - 1, Mod(rel, b))
  }

  /** The leaf a walk finds lies inside the entry the walk went through. */
  lemma {:induction false} WalkInBlock(g: Geometry, m: Memory, t: nat, level: nat, rel: nat)
    requires g.Valid() && level < |g.block|
    ensures var x, b := Walk(g, m, t, level, rel), g.block[level];
            x.Hit? ==> x.size > 0 && x.off < x.size && x.off <= Mod(rel, b) && Mod(rel, b) - x.off + x.size <= b
    decreases level
  {
    var b := g.block[level];
    if t in m && Div(rel, b) < |m[t]| && m[t][Div(rel, b)].Table? && level > 0 {
      WalkInBlock(g, m, m[t][Div(rel, b)].next, level - 1, Mod(rel, b));
      assert g.Scaled(level);
      BlockRoom(Mod(rel, b), g.block[level - 1], g.entries);
    }
  }

  /** All addresses of one leaf walk to that leaf. */
  lemma {:induction false} WalkSameLeaf(g: Geometry, m: Memory, t: nat, level: nat, rel: nat, to: nat)
    requires g.Valid() && level < |g.block|
    requires var x := Walk(g, m, t, level, rel);
             x.Hit? && rel <= to + x.off && to + x.off < rel + x.size
    ensures var x := Walk(g, m, t, level, rel);
            Walk(g, m, t, level, to) == x.(off := to + x.off - rel)
    decreases level
  {
    var b := g.block[level];
    WalkInBlock(g, m, t, level, rel);
    DivShift(rel, to, b);
    if m[t][Div(rel, b)].Table? {
      WalkSameLeaf(g, m, m[t][Div(rel, b)].next, level - 1, Mod(rel, b), Mod(to, b));
    }
  }

  /** A walk with the leaves that meet `[v, v + size)` gone. */
  ghost function Cleared(x: Xlat, rel: nat, v: nat, size: nat): Xlat {
    if x.Hit? && Meets(x, rel, v, size) then Fault else x
  }

  /** The leaf found at `rel` has an address in `[v, v + size)`. */
  ghost predicate Meets(x: Xlat, rel: nat, v: nat, size: nat)
    requires x.Hit?
  {
    size > 0 && rel < v + size + x.off && v + x.off < rel + x.size
  }

  /** The tables as a tree: `path` gives each live table the indices that lead to it from the root, and
      `up` the one table that links it. */
  ghost predicate Tree(g: Geometry, m: Memory, path: Paths, up: Parents)
    requires g.Valid()
  {
    && m.Keys == path.Keys == up.Keys
    && g.root in m && path[g.root] == []
    && (forall t :: t in m ==> |path[t]| <= g.Top() && |m[t]| == if t == g.root then g.topEntries else g.entries)
    && (forall t, i {:trigger Child(g, m, path, up, t, i)} ::
          t in m && 0 <= i < |m[t]| && m[t][i].Table? ==> Child(g, m, path, up, t, i))
    && (forall s, t {:trigger SamePath(path, s, t)} :: s in m && t in m && SamePath(path, s, t) ==> s == t)
    && (forall t {:trigger Linked(m, path, up, t)} :: t in m && t != g.root ==> Linked(m, path, up, t))
  }

  /** The same, stated for the root by name, so that only a proof that names it unfolds the tree. */
  ghost predicate Rooted(g: Geometry, m: Memory, path: Paths, up: Parents)
    requires g.Valid()
  {
    forall t {:trigger TreeFrom(g, m, path, up, t)} :: t == g.root ==> TreeFrom(g, m, path, up, t)
  }

  ghost predicate TreeFrom(g: Geometry, m: Memory, path: Paths, up: Parents, t: nat)
    requires g.Valid()
  {
    t == g.root && Tree(g, m, path, up)
  }

  ghost predicate SamePath(path: Paths, s: nat, t: nat)
    requires s in path && t in path
  {
    path[s] == path[t]
  }

  /** Entry `i` of `t` links a live table one level down. */
  ghost predicate Child(g: Geometry, m: Memory, path: Paths, up: Parents, t: nat, i: nat)
    requires g.Valid() && m.Keys == path.Keys == up.Keys && t in m && i < |m[t]| && m[t][i].Table?
  {
    var c := m[t][i].next;
    c in m && c != g.root && |path[t]| < g.Top() && path[c] == path[t] + [i] && up[c] == t
  }

  /** A table below the root is linked by the entry its path names. */
  ghost predicate Linked(m: Memory, path: Paths, up: Parents, c: nat)
    requires m.Keys == path.Keys == up.Keys && c in m
  {
    var p, n := path[c], |path[c]|;
    && n > 0 && up[c] in m && path[up[c]] == p[..n - 1]
    && p[n - 1] < |m[up[c]]| && m[up[c]][p[n - 1]] == Table(c)
  }

  /** `s` is `t` or a table below it. */
  ghost predicate Under(path: Paths, t: nat, s: nat)
    requires t in path && s in path
  {
    path[t] <= path[s]
  }

  /** A walk from `t` depends only on the tables under `t`. */
  lemma {:induction false} WalkFrame(g: Geometry, m: Memory, path: Paths, up: Parents, m': Memory, t: nat, level: nat,
                                     rel: nat)
    requires g.Valid() && Tree(g, m, path, up) && t in m && level == g.Top() - |path[t]|
    requires forall s :: s in m && Under(path, t, s) ==> s in m' && m'[s] == m[s]
    ensures Walk(g, m', t, level, rel) == Walk(g, m, t, level, rel)
    decreases level
  {
    var i := Div(rel, g.block[level]);
    assert Under(path, t, t);
    if i < |m[t]| && m[t][i].Table? {
      assert Child(g, m, path, up, t, i);
      var c := m[t][i].next;
      forall s | s in m && Under(path, c, s) ensures Under(path, t, s) {
        assert path[t] <= path[c];
      }
      WalkFrame(g, m, path, up, m', c, level - 1, Mod(rel, g.block[level]));
    }
  }

  /** Nothing outside the tables under `t` changed. */
  ghost predicate KeptOutside(m: Memory, path: Paths, m': Memory, path': Paths, t: nat)
    requires m.Keys == path.Keys && m'.Keys == path'.Keys && t in m
  {
    && t in m' && path'[t] == path[t]
    && forall s :: s in m && !Under(path, t, s) ==> s in m' && m'[s] == m[s] && path'[s] == path[s]
  }

  /** Only entry `i` of `t` and tables under it changed. */
  ghost predicate KeptOutsideEntry(m: Memory, path: Paths, m': Memory, path': Paths, t: nat, i: nat)
    requires m.Keys == path.Keys && m'.Keys == path'.Keys && t in m
  {
    && t in m' && path'[t] == path[t] && |m'[t]| == |m[t]|
    && (forall j :: 0 <= j < |m[t]| && j != i ==> m'[t][j] == m[t][j])
    && forall s :: s in m && s != t && !(path[t] + [i] <= path[s]) ==> s in m' && m'[s] == m[s] && path'[s] == path[s]
  }

  /** Tables under different entries of one table are different. */
  lemma Siblings(p: seq<nat>, i: nat, j: nat, q: seq<nat>)
    requires i != j && p + [j] <= q
    ensures !(p + [i] <= q) && p != q
  {
    assert (p + [j])[|p|] == q[|p|] == j;
    assert (p + [i])[|p|] == i;
  }

  lemma SiblingKept(m: Memory, path: Paths, m': Memory, t: nat, i: nat, j: nat, d: nat)
    requires m.Keys == path.Keys && t in m && d in m && path[d] == path[t] + [j] && i != j
    requires forall s :: s in m && s != t && !(path[t] + [i] <= path[s]) ==> s in m' && m'[s] == m[s]
    ensures forall s :: s in m && Under(path, d, s) ==> s in m' && m'[s] == m[s]
  {
    forall s | s in m && Under(path, d, s) ensures s in m' && m'[s] == m[s] {
      Siblings(path[t], i, j, path[s]);
    }
  }

  /** After a change confined to entry `i` of `t` and the tables under it, other entries walk as before. */
  lemma OtherEntries(g: Geometry, m: Memory, path: Paths, up: Parents, m': Memory, t: nat, level: nat, i: nat, rel: nat)
    requires g.Valid() && Tree(g, m, path, up) && t in m && level == g.Top() - |path[t]|
    requires t in m' && i < |m[t]| == |m'[t]|
    requires forall j :: 0 <= j < |m[t]| && j != i ==> m'[t][j] == m[t][j]
    requires forall s :: s in m && s != t && !(path[t] + [i] <= path[s]) ==> s in m' && m'[s] == m[s]
    requires Div(rel, g.block[level]) != i
    ensures Walk(g, m', t, level, rel) == Walk(g, m, t, level, rel)
  {
    var j := Div(rel, g.block[level]);
    if j < |m[t]| && m[t][j].Table? {
      assert Child(g, m, path, up, t, j);
      var d := m[t][j].next;
      SiblingKept(m, path, m', t, i, j, d);
      WalkFrame(g, m, path, up, m', d, level - 1, Mod(rel, g.block[level]));
    }
  }

  /** Follow link entries from table `t`. */
  ghost function Follow(m: Memory, t: nat, indices: seq<nat>): set<nat>
    decreases |indices|
  {
    if t !in m then {}
    else if indices == [] then {t}
    else if indices[0] < |m[t]| && m[t][indices[0]].Table? then Follow(m, m[t][indices[0]].next, indices[1..])
    else {}
  }

  lemma {:induction false} FollowSnoc(m: Memory, t: nat, indices: seq<nat>, s: nat, i: nat)
    requires s in Follow(m, t, indices)
    ensures s in m
    decreases |indices|
    ensures i < |m[s]| && m[s][i].Table? && m[s][i].next in m ==> m[s][i].next in Follow(m, t, indices + [i])
  {
    if indices == [] {
    } else {
      FollowSnoc(m, m[t][indices[0]].next, indices[1..], s, i);
      assert (indices + [i])[1..] == indices[1..] + [i];
    }
  }

  /** Every live table is reached from the root, along its own path. */
  lemma {:induction false} LiveReached(g: Geometry, m: Memory, path: Paths, up: Parents, c: nat)
    requires g.Valid() && Tree(g, m, path, up) && c in m
    ensures c in Follow(m, g.root, path[c])
    decreases |path[c]|
  {
    if c != g.root {
      assert Linked(m, path, up, c);
      var n := |path[c]|;
      LiveReached(g, m, path, up, up[c]);
      FollowSnoc(m, g.root, path[up[c]], up[c], path[c][n - 1]);
      assert path[c] == path[c][..n - 1] + [path[c][n - 1]];
    }
  }

  /** Whatever is reached from the root is live, and by one path only. */
  lemma {:induction false} ReachedOnce(g: Geometry, m: Memory, path: Paths, up: Parents, t: nat, indices: seq<nat>,
                                       c: nat)
    requires g.Valid() && Tree(g, m, path, up) && t in m && c in Follow(m, t, indices)
    ensures c in m && path[c] == path[t] + indices
    decreases |indices|
  {
    if indices != [] {
      assert Child(g, m, path, up, t, indices[0]);
      ReachedOnce(g, m, path, up, m[t][indices[0]].next, indices[1..], c);
      assert path[t] + indices == path[t] + [indices[0]] + indices[1..];
    }
  }

  /** The live table pages are exactly the ones the root reaches, each along exactly one path. */
  lemma LiveIffReached(g: Geometry, m: Memory, path: Paths, up: Parents, c: nat)
    requires g.Valid() && Tree(g, m, path, up)
    ensures c in m <==> exists p :: c in Follow(m, g.root, p)
    ensures forall p, q :: c in Follow(m, g.root, p) && c in Follow(m, g.root, q) ==> p == q
  {
    if c in m {
      LiveReached(g, m, path, up, c);
    }
    forall p | c in Follow(m, g.root, p) ensures c in m && p == path[c] {
      ReachedOnce(g, m, path, up, g.root, p, c);
      assert path[g.root] + p == p;
    }
  }

  /** Every block size is a multiple of the page size. */
  lemma {:induction false} BlockAligned(g: Geometry, level: nat)
    requires g.Valid() && level < |g.block|
    ensures Mod(g.block[level], g.block[0]) == 0
  {
    if level == 0 {
      DivMod(g.block[0], g.block[0]);
      DivModUnique(g.block[0], g.block[0], 1, 0);
    } else {
      BlockAligned(g, level - 1);
      assert g.Scaled(level);
      ModMul(g.entries, g.block[0], g.block[level - 1]);
    }
  }

  /** An entry above the last level covers more than a page. */
  lemma {:induction false} BlockGrows(g: Geometry, level: nat)
    requires g.Valid() && 0 < level < |g.block|
    ensures g.block[level] > g.block[0]
  {
    assert g.Scaled(level);
    MulMono(g.block[level - 1], 2, g.entries);
    if level > 1 {
      BlockGrows(g, level - 1);
    }
  }

  function Fresh(n: nat): seq<Pte> {
    seq(n, i => Invalid)
  }

  /** Overwriting an entry that is not a link with one that is not a link. */
  lemma SetEntry(g: Geometry, m: Memory, path: Paths, up: Parents, t: nat, i: nat, e: Pte)
    requires g.Valid() && Tree(g, m, path, up) && t in m && i < |m[t]|
    requires !m[t][i].Table? && !e.Table?
    ensures Tree(g, m[t := m[t][i := e]], path, up)
  {
    var m': Memory := m[t := m[t][i := e]];
    SetEntrySizes(g, m, path, up, t, i, e);
    forall s, j | s in m' && 0 <= j < |m'[s]| && m'[s][j].Table? ensures Child(g, m', path, up, s, j) {
      SetEntryChild(g, m, path, up, t, i, e, s, j);
    }
    forall c | c in m' && c != g.root ensures Linked(m', path, up, c) {
      assert Linked(m, path, up, c);
      SetEntryLinked(m, path, up, t, i, e, c);
    }
  }

  lemma SetEntrySizes(g: Geometry, m: Memory, path: Paths, up: Parents, t: nat, i: nat, e: Pte)
    requires g.Valid() && Tree(g, m, path, up) && t in m && i < |m[t]|
    ensures var m': Memory := m[t := m[t][i := e]];
            && m'.Keys == path.Keys && g.root in m'
            && forall s :: s in m' ==>
                 |path[s]| <= g.Top() && |m'[s]| == if s == g.root then g.topEntries else g.entries
  {
    var m': Memory := m[t := m[t][i := e]];
    assert m'.Keys == m.Keys;
  }

  lemma SetEntryChild(g: Geometry, m: Memory, path: Paths, up: Parents, t: nat, i: nat, e: Pte, s: nat, j: nat)
    requires g.Valid() && Tree(g, m, path, up) && t in m && i < |m[t]| && !e.Table?
    requires var m': Memory := m[t := m[t][i := e]]; s in m' && j < |m'[s]| && m'[s][j].Table?
    ensures Child(g, m[t := m[t][i := e]], path, up, s, j)
  {
    assert Child(g, m, path, up, s, j);
  }

  lemma SetEntryLinked(m: Memory, path: Paths, up: Parents, t: nat, i: nat, e: Pte, c: nat)
    requires m.Keys == path.Keys == up.Keys && t in m && i < |m[t]| && !m[t][i].Table? && c in m
    requires Linked(m, path, up, c)
    ensures Linked(m[t := m[t][i := e]], path, up, c)
  {
  }

  /** No live table has the path of an entry that is not a link. */
  lemma PathUnused(g: Geometry, m: Memory, path: Paths, up: Parents, t: nat, i: nat, s: nat)
    requires g.Valid() && Tree(g, m, path, up) && t in m && i < |m[t]| && !m[t][i].Table? && s in m
    ensures path[s] != path[t] + [i]
  {
    if s != g.root {
      assert Linked(m, path, up, s);
      assert (path[t] + [i])[..|path[t]|] == path[t] && (path[t] + [i])[|path[t]|] == i;
      assert SamePath(path, up[s], t) ==> up[s] == t;
    }
  }

  /** Linking a fresh table from an empty entry. */
  lemma LinkFresh(g: Geometry, m: Memory, path: Paths, up: Parents, t: nat, i: nat, c: nat)
    requires g.Valid() && Tree(g, m, path, up) && t in m && i < |m[t]| && |path[t]| < g.Top()
    requires m[t][i].Invalid? && c !in m
    ensures Tree(g, m[c := Fresh(g.entries)][t := m[t][i := Table(c)]], path[c := path[t] + [i]], up[c := t])
  {
    var m': Memory := m[c := Fresh(g.entries)][t := m[t][i := Table(c)]];
    var path', up' := path[c := path[t] + [i]], up[c := t];
    LinkFreshSizes(g, m, path, up, t, i, c);
    forall s, r | s in m' && r in m' && SamePath(path', s, r) ensures s == r {
      LinkFreshPath(g, m, path, up, t, i, c, s, r);
    }
    forall s, j | s in m' && 0 <= j < |m'[s]| && m'[s][j].Table? ensures Child(g, m', path', up', s, j) {
      LinkFreshChild(g, m, path, up, t, i, c, s, j);
    }
    forall s | s in m' && s != g.root ensures Linked(m', path', up', s) {
      LinkFreshLinked(g, m, path, up, t, i, c, s);
    }
  }

  lemma LinkFreshSizes(g: Geometry, m: Memory, path: Paths, up: Parents, t: nat, i: nat, c: nat)
    requires g.Valid() && Tree(g, m, path, up) && t in m && i < |m[t]| && |path[t]| < g.Top() && c !in m
    ensures var m': Memory := m[c := Fresh(g.entries)][t := m[t][i := Table(c)]];
            var path', up' := path[c := path[t] + [i]], up[c := t];
            && m'.Keys == path'.Keys == up'.Keys && g.root in m' && path'[g.root] == []
            && forall s :: s in m' ==>
                 |path'[s]| <= g.Top() && |m'[s]| == if s == g.root then g.topEntries else g.entries
  {
  }

  lemma LinkFreshPath(g: Geometry, m: Memory, path: Paths, up: Parents, t: nat, i: nat, c: nat, s: nat, r: nat)
    requires g.Valid() && Tree(g, m, path, up) && t in m && i < |m[t]| && m[t][i].Invalid? && c !in m
    requires (s in m || s == c) && (r in m || r == c) && SamePath(path[c := path[t] + [i]], s, r)
    ensures s == r
  {
    if s != c && r != c {
      assert SamePath(path, s, r);
    } else if s != c {
      PathUnused(g, m, path, up, t, i, s);
    } else if r != c {
      PathUnused(g, m, path, up, t, i, r);
    }
  }

  lemma LinkFreshChild(g: Geometry, m: Memory, path: Paths, up: Parents, t: nat, i: nat, c: nat, s: nat, j: nat)
    requires g.Valid() && Tree(g, m, path, up) && t in m && i < |m[t]| && |path[t]| < g.Top() && m[t][i].Invalid?
    requires c !in m
    requires var m': Memory := m[c := Fresh(g.entries)][t := m[t][i := Table(c)]];
             s in m' && j < |m'[s]| && m'[s][j].Table?
    ensures var m': Memory := m[c := Fresh(g.entries)][t := m[t][i := Table(c)]];
            var path', up' := path[c := path[t] + [i]], up[c := t];
            m'.Keys == path'.Keys == up'.Keys && Child(g, m', path', up', s, j)
  {
    if !(s == t && j == i) {
      assert Child(g, m, path, up, s, j);
    }
  }

  lemma LinkFreshLinked(g: Geometry, m: Memory, path: Paths, up: Parents, t: nat, i: nat, c: nat, s: nat)
    requires g.Valid() && Tree(g, m, path, up) && t in m && i < |m[t]| && m[t][i].Invalid? && c !in m
    requires s == c || (s in m && s != g.root)
    ensures Linked(m[c := Fresh(g.entries)][t := m[t][i := Table(c)]], path[c := path[t] + [i]], up[c := t], s)
  {
    if s != c {
      assert Linked(m, path, up, s);
    }
  }

  /** Unlinking a table whose entries are all empty. */
  lemma Unlink(g: Geometry, m: Memory, path: Paths, up: Parents, t: nat, i: nat)
    requires g.Valid() && Tree(g, m, path, up) && t in m && i < |m[t]| && m[t][i].Table?
    requires m[t][i].next in m && forall j :: 0 <= j < |m[m[t][i].next]| ==> m[m[t][i].next][j].Invalid?
    ensures var c := m[t][i].next;
            c != t && Tree(g, m[t := m[t][i := Invalid]] - {c}, path - {c}, up - {c})
  {
    var c := m[t][i].next;
    var m': Memory := m[t := m[t][i := Invalid]] - {c};
    var path', up' := path - {c}, up - {c};
    assert Child(g, m, path, up, t, i);
    assert path[c][|path[t]|] == i;
    forall s, r | s in m' && r in m' && SamePath(path', s, r) ensures s == r {
      assert SamePath(path, s, r);
    }
    forall s, j | s in m' && 0 <= j < |m'[s]| && m'[s][j].Table? ensures Child(g, m', path', up', s, j) {
      assert Child(g, m, path, up, s, j);
      assert path[m[s][j].next][|path[s]|] == j;
    }
    forall s | s in m' && s != g.root ensures Linked(m', path', up', s) {
      assert Linked(m, path, up, s);
    }
  }
}
