/** Mapping page by page (arch/arm64/mmu.c): the tables it takes are the places on the range that have none. */
module MmuPages {
  import opened Arith
  import opened MmuTree
  import opened MmuTidy
  import opened MmuCount
  import opened MmuNeat

  /** The paths of the tables that the walk of `rel` down to the last level goes through, below the one with path
      `p`. */
  ghost function Trail(g: Geometry, p: seq<nat>, level: nat, rel: nat): set<seq<nat>>
    requires g.Valid() && level < |g.block|
    decreases level
  {
    if level == 0 then {}
    else
      var q := p + [Div(rel, g.block[level])];
      {q} + Trail(g, q, level - 1, Mod(rel, g.block[level]))
  }

  /** The paths of all tables that `n` pages at `v` need. */
  ghost function Places(g: Geometry, v: nat, n: nat): set<seq<nat>>
    requires g.Valid()
  {
    if n == 0 then {} else Places(g, v, n - 1) + Trail(g, [], g.Top(), v + (n - 1) * g.block[0])
  }

  lemma {:induction false} TrailSize(g: Geometry, p: seq<nat>, level: nat, rel: nat)
    requires g.Valid() && level < |g.block|
    ensures Card(Trail(g, p, level, rel)) == level
    ensures forall q :: q in Trail(g, p, level, rel) ==> p <= q && |p| < |q|
    decreases level
  {
    if level > 0 {
      var q, rest := p + [Div(rel, g.block[level])], Mod(rel, g.block[level]);
      TrailSize(g, q, level - 1, rest);
      CardSum({q}, Trail(g, q, level - 1, rest));
      CardIs({q});
      assert p <= q;
    }
  }

  /** A page lies inside its block on every level. */
  lemma PageInBlock(g: Geometry, level: nat, v: nat)
    requires g.Valid() && level < |g.block| && Mod(v, g.block[0]) == 0
    ensures Mod(v, g.block[level]) + g.block[0] <= g.block[level] && Mod(Mod(v, g.block[level]), g.block[0]) == 0
  {
    var p, b := g.block[0], g.block[level];
    BlockAligned(g, level);
    ModNested(v, b, p);
    ModSub(b, Mod(v, b), p);
  }

  /** One page is one chunk on every level, and no block above the last. */
  lemma LackOne(g: Geometry, m: Memory, t: nat, level: nat, v: nat, pa: nat)
    requires g.Valid() && level < |g.block| && Mod(v, g.block[0]) == 0
    ensures var b := g.block[level];
            Lack(g, m, t, level, v, pa, g.block[0])
            == if level == 0 then 0
               else match Next(m, t, Div(v, b))
                    case Some(c) => Lack(g, m, c, level - 1, Mod(v, b), pa, g.block[0])
                    case None => 1 + Lack(g, map[], 0, level - 1, Mod(v, b), pa, g.block[0])
  {
    PageInBlock(g, level, v);
    if level > 0 {
      BlockGrows(g, level);
    }
    assert Chunk(v, g.block[0], g.block[level]) == g.block[0];
    assert Lack(g, m, t, level, v + g.block[0], pa + g.block[0], 0) == 0;
  }

  lemma {:induction false} LackNone(g: Geometry, level: nat, v: nat, pa: nat)
    requires g.Valid() && level < |g.block| && Mod(v, g.block[0]) == 0
    ensures Lack(g, map[], 0, level, v, pa, g.block[0]) == level
    decreases level
  {
    LackOne(g, map[], 0, level, v, pa);
    if level > 0 {
      PageInBlock(g, level, v);
      LackNone(g, level - 1, Mod(v, g.block[level]), pa);
    }
  }

  /** The tables missing for one page are the places on its trail where there is none. */
  lemma {:induction false} LackPage(g: Geometry, m: Memory, path: Paths, up: Parents, t: nat, level: nat, v: nat,
                                    pa: nat)
    requires g.Valid() && Tree(g, m, path, up) && t in m && level == g.Top() - |path[t]| && Mod(v, g.block[0]) == 0
    ensures Lack(g, m, t, level, v, pa, g.block[0]) == Card(Trail(g, path[t], level, v) - path.Values)
    decreases level
  {
    LackOne(g, m, t, level, v, pa);
    if level > 0 {
      var b := g.block[level];
      var i := Div(v, b);
      PageInBlock(g, level, v);
      if Next(m, t, i).Some? {
        assert Child(g, m, path, up, t, i);
        var c := m[t][i].next;
        LackPage(g, m, path, up, c, level - 1, Mod(v, b), pa);
        assert Trail(g, path[t], level, v) - path.Values == Trail(g, path[c], level - 1, Mod(v, b)) - path.Values;
      } else {
        LackNone(g, level - 1, Mod(v, b), pa);
        NoneThrough(g, m, path, up, t, level, v);
        TrailSize(g, path[t], level, v);
      }
    }
  }

  /** No table is in the way of a single page, for the last level links none. */
  lemma {:induction false} PageNotInWay(g: Geometry, m: Memory, path: Paths, up: Parents, t: nat, level: nat, v: nat,
                                        pa: nat)
    requires g.Valid() && Tree(g, m, path, up) && t in m && level == g.Top() - |path[t]| && Mod(v, g.block[0]) == 0
    ensures !InWay(g, m, t, level, v, pa, g.block[0])
    decreases level
  {
    var b := g.block[level];
    PageInBlock(g, level, v);
    assert Chunk(v, g.block[0], b) == g.block[0];
    assert !InWay(g, m, t, level, v + g.block[0], pa + g.block[0], 0);
    if Next(m, t, Div(v, b)).Some? {
      assert Child(g, m, path, up, t, Div(v, b));
      BlockGrows(g, level);
      PageNotInWay(g, m, path, up, m[t][Div(v, b)].next, level - 1, Mod(v, b), pa);
    }
  }

  /** Below an entry that links no table there is none. */
  lemma NoneThrough(g: Geometry, m: Memory, path: Paths, up: Parents, t: nat, level: nat, v: nat)
    requires g.Valid() && Tree(g, m, path, up) && t in m && 0 < level < |g.block|
    requires Next(m, t, Div(v, g.block[level])).None?
    ensures Trail(g, path[t], level, v) - path.Values == Trail(g, path[t], level, v)
  {
    var i := Div(v, g.block[level]);
    var q := path[t] + [i];
    TrailSize(g, q, level - 1, Mod(v, g.block[level]));
    forall c | c in path && path[c] in Trail(g, path[t], level, v) ensures false {
      assert q <= path[c];
      LinkedThrough(g, m, path, up, t, i, c);
    }
  }

  /** A page that is mapped has all the tables on its trail. */
  lemma {:induction false} TrailMade(g: Geometry, m: Memory, path: Paths, up: Parents, t: nat, level: nat, v: nat)
    requires g.Valid() && Tree(g, m, path, up) && t in m && level == g.Top() - |path[t]|
    requires Walk(g, m, t, level, v).Hit? && Walk(g, m, t, level, v).size <= g.block[0]
    ensures Trail(g, path[t], level, v) <= path.Values
    decreases level
  {
    if level > 0 {
      BlockGrows(g, level);
      var i := Div(v, g.block[level]);
      assert Child(g, m, path, up, t, i);
      TrailMade(g, m, path, up, m[t][i].next, level - 1, Mod(v, g.block[level]));
    }
  }

  /** Tables that touch a page are on its trail. */
  lemma {:induction false} OnTrail(g: Geometry, p: seq<nat>, level: nat, q: seq<nat>, v: nat, rel: nat)
    requires g.Valid() && level < |g.block| && 0 < |q| <= level && Mod(v, g.block[0]) == 0
    requires v <= rel < v + g.block[0] && On(g, level, q, rel)
    ensures p + q in Trail(g, p, level, v)
    decreases level
  {
    var b := g.block[level];
    PageInBlock(g, level, v);
    DivShift(v, rel, b);
    if |q| > 1 {
      OnTrail(g, p + [q[0]], level - 1, q[1..], Mod(v, b), Mod(rel, b));
      assert p + q == p + [q[0]] + q[1..];
    } else {
      assert p + q == p + [q[0]];
    }
  }

  /** Mapping one page fills the places on its trail, and no others. */
  lemma PageLive(g: Geometry, m0: Memory, path0: Paths, up0: Parents, m: Memory, path: Paths, up: Parents, v: nat)
    requires g.Valid() && Tree(g, m0, path0, up0) && Tree(g, m, path, up) && Mod(v, g.block[0]) == 0
    requires Extends(m0, m) && Grows(g, m0, path0, m, path, [], g.Top(), v, g.block[0])
    requires Walk(g, m, g.root, g.Top(), v).Hit? && Walk(g, m, g.root, g.Top(), v).size <= g.block[0]
    ensures path.Values == path0.Values + Trail(g, [], g.Top(), v)
  {
    TrailMade(g, m, path, up, g.root, g.Top(), v);
    forall c | c in path0 ensures path0[c] in path.Values {
      assert ExtendsAt(m0, m, c) && Of(path, c) == Of(path0, c);
    }
    forall c | c in path ensures path[c] in path0.Values + Trail(g, [], g.Top(), v) {
      if c in m0 {
        assert Of(path, c) == Of(path0, c);
      } else {
        NewTouches(g, m0, path0, up0, m, path, up, v, g.block[0], c);
        var rel: nat :| v <= rel < v + g.block[0] && On(g, g.Top(), path[c], rel);
        assert Linked(m, path, up, c);
        OnTrail(g, [], g.Top(), path[c], v, rel);
        assert [] + path[c] == path[c];
      }
    }
  }

  /** One page more: the places it adds are those on its trail that neither were there nor have been filled. */
  lemma PlacesNext(g: Geometry, v: nat, n: nat, live: set<seq<nat>>)
    requires g.Valid()
    ensures Card(Places(g, v, n + 1) - live)
         == Card(Places(g, v, n) - live) + Card(Trail(g, [], g.Top(), v + n * g.block[0]) - (live + Places(g, v, n)))
  {
    var a, t := Places(g, v, n), Trail(g, [], g.Top(), v + n * g.block[0]);
    assert Places(g, v, n + 1) - live == (a - live) + (t - (live + a));
    CardSum(a - live, t - (live + a));
  }

  lemma {:induction false} PlacesMono(g: Geometry, v: nat, n: nat, total: nat, live: set<seq<nat>>)
    requires g.Valid() && n <= total
    ensures Card(Places(g, v, n) - live) <= Card(Places(g, v, total) - live)
    decreases total
  {
    if n < total {
      PlacesMono(g, v, n, total - 1, live);
      PlacesNext(g, v, total - 1, live);
    }
  }
}
