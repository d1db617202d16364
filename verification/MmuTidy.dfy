/** Which tables a mapping adds and an unmapping frees: entries that a mapping writes lie on its range, and an
    unmapping leaves no empty table on its range.  Together they say that no table page is left behind. */
module MmuTidy {
  import opened Arith
  import opened MmuTree

  /** The walk of `rel` from a table `level` levels above the last goes through the entries `q`. */
  ghost predicate On(g: Geometry, level: nat, q: seq<nat>, rel: nat)
    requires g.Valid() && level < |g.block|
    decreases |q|
  {
    q == [] || (Div(rel, g.block[level]) == q[0]
                && (|q| == 1 || (level > 0 && On(g, level - 1, q[1..], Mod(rel, g.block[level])))))
  }

  /** The entry that `q` leads to covers an address of `[v, v + size)`. */
  ghost predicate Touch(g: Geometry, level: nat, q: seq<nat>, v: nat, size: nat)
    requires g.Valid() && level < |g.block|
  {
    exists rel: nat :: v <= rel < v + size && On(g, level, q, rel)
  }

  ghost predicate Empty(m: Memory, c: nat) {
    c in m && forall j :: 0 <= j < |m[c]| ==> m[c][j].Invalid?
  }

  /** Entry `j` of table `s` is in use. */
  ghost predicate InUse(m: Memory, s: nat, j: nat) {
    s in m && j < |m[s]| && !m[s][j].Invalid?
  }

  /** Tables are only dropped and entries only cleared. */
  ghost predicate Shrinks(m: Memory, path: Paths, m': Memory, path': Paths) {
    forall s {:trigger ShrinksAt(m, path, m', path', s)} :: ShrinksAt(m, path, m', path', s)
  }

  ghost predicate ShrinksAt(m: Memory, path: Paths, m': Memory, path': Paths, s: nat) {
    s in m' ==>
      && s in m && s in path && s in path' && path'[s] == path[s] && |m'[s]| == |m[s]|
      && forall j :: 0 <= j < |m[s]| ==> m'[s][j].Invalid? || m'[s][j] == m[s][j]
  }

  lemma ShrinksTrans(m0: Memory, path0: Paths, m: Memory, path: Paths, m': Memory, path': Paths)
    requires Shrinks(m0, path0, m, path) && Shrinks(m, path, m', path')
    ensures Shrinks(m0, path0, m', path')
  {
    forall s ensures ShrinksAt(m0, path0, m', path', s) {
      assert ShrinksAt(m0, path0, m, path, s) && ShrinksAt(m, path, m', path', s);
    }
  }

  /** No table is dropped and no entry in use is changed. */
  ghost predicate Extends(m: Memory, m': Memory) {
    forall s {:trigger ExtendsAt(m, m', s)} :: ExtendsAt(m, m', s)
  }

  ghost predicate ExtendsAt(m: Memory, m': Memory, s: nat) {
    s in m ==>
      && s in m' && |m'[s]| == |m[s]|
      && forall j :: 0 <= j < |m[s]| && !m[s][j].Invalid? ==> m'[s][j] == m[s][j]
  }

  lemma ExtendsTrans(m0: Memory, m: Memory, m': Memory)
    requires Extends(m0, m) && Extends(m, m')
    ensures Extends(m0, m')
  {
    forall s ensures ExtendsAt(m0, m', s) {
      assert ExtendsAt(m0, m, s) && ExtendsAt(m, m', s);
    }
  }

  /** The entry in use links a table that is not empty. */
  ghost predicate LinksUsed(m: Memory, s: nat, j: nat)
    requires InUse(m, s, j)
  {
    m[s][j].Table? && m[s][j].next in m && !Empty(m, m[s][j].next)
  }

  ghost function Of(path: Paths, s: nat): seq<nat> {
    if s in path then path[s] else []
  }

  /** Under the table with path `p`, what is left in use on `[v, v + size)` links tables that are not empty. */
  ghost predicate Tidy(g: Geometry, m: Memory, path: Paths, p: seq<nat>, level: nat, v: nat, size: nat)
    requires g.Valid() && level < |g.block|
  {
    forall s, j: nat {:trigger TidyAt(g, m, path, p, level, v, size, s, j)} ::
      TidyAt(g, m, path, p, level, v, size, s, j)
  }

  ghost predicate TidyAt(g: Geometry, m: Memory, path: Paths, p: seq<nat>, level: nat, v: nat, size: nat, s: nat,
                         j: nat)
    requires g.Valid() && level < |g.block|
  {
    InUse(m, s, j) && p <= Of(path, s) && Touch(g, level, (Of(path, s) + [j])[|p|..], v, size) ==> LinksUsed(m, s, j)
  }

  /** The same for the entry with path `p` itself and for the part `[rem, rem + chunk)` of what it covers. */
  ghost predicate TidyEntry(g: Geometry, m: Memory, path: Paths, p: seq<nat>, level: nat, rem: nat, chunk: nat)
    requires g.Valid() && level < |g.block|
  {
    forall s, j: nat {:trigger TidyEntryAt(g, m, path, p, level, rem, chunk, s, j)} ::
      TidyEntryAt(g, m, path, p, level, rem, chunk, s, j)
  }

  ghost predicate TidyEntryAt(g: Geometry, m: Memory, path: Paths, p: seq<nat>, level: nat, rem: nat, chunk: nat,
                              s: nat, j: nat)
    requires g.Valid() && level < |g.block|
  {
    InUse(m, s, j) && InEntry(g, p, Of(path, s) + [j], level, rem, chunk) ==> LinksUsed(m, s, j)
  }

  /** The entry path `q` is `p`, or is below `p` and touches `[rem, rem + chunk)` of what `p` covers. */
  ghost predicate InEntry(g: Geometry, p: seq<nat>, q: seq<nat>, level: nat, rem: nat, chunk: nat)
    requires g.Valid() && level < |g.block|
  {
    q == p || (p <= q && |p| < |q| && level > 0 && Touch(g, level - 1, q[|p|..], rem, chunk))
  }

  /** An entry in use in `m` is one of `m0`, or was not in use there, is on `[v, v + size)` under the table with path
      `p`, and links no table of `m0`. */
  ghost predicate Grows(g: Geometry, m0: Memory, path0: Paths, m: Memory, path: Paths, p: seq<nat>, level: nat, v: nat,
                        size: nat)
    requires g.Valid() && level < |g.block|
  {
    && (forall s :: s in m0 && s in m ==> Of(path, s) == Of(path0, s))
    && forall s, j: nat {:trigger GrowsAt(g, m0, m, path, p, level, v, size, s, j)} ::
         GrowsAt(g, m0, m, path, p, level, v, size, s, j)
  }

  ghost predicate GrowsAt(g: Geometry, m0: Memory, m: Memory, path: Paths, p: seq<nat>, level: nat, v: nat, size: nat,
                          s: nat, j: nat)
    requires g.Valid() && level < |g.block|
  {
    InUse(m, s, j) ==>
      Same(m0, m, s, j)
      || (!InUse(m0, s, j) && p <= Of(path, s) && Touch(g, level, (Of(path, s) + [j])[|p|..], v, size)
          && (m[s][j].Table? ==> m[s][j].next !in m0))
  }

  ghost predicate Same(m0: Memory, m: Memory, s: nat, j: nat)
    requires InUse(m, s, j)
  {
    s in m0 && j < |m0[s]| && m0[s][j] == m[s][j]
  }

  ghost predicate GrowsEntry(g: Geometry, m0: Memory, path0: Paths, m: Memory, path: Paths, p: seq<nat>, level: nat,
                             rem: nat, chunk: nat)
    requires g.Valid() && level < |g.block|
  {
    && (forall s :: s in m0 && s in m ==> Of(path, s) == Of(path0, s))
    && forall s, j: nat {:trigger GrowsEntryAt(g, m0, m, path, p, level, rem, chunk, s, j)} ::
         GrowsEntryAt(g, m0, m, path, p, level, rem, chunk, s, j)
  }

  ghost predicate GrowsEntryAt(g: Geometry, m0: Memory, m: Memory, path: Paths, p: seq<nat>, level: nat, rem: nat,
                               chunk: nat, s: nat, j: nat)
    requires g.Valid() && level < |g.block|
  {
    InUse(m, s, j) ==>
      Same(m0, m, s, j)
      || (!InUse(m0, s, j) && InEntry(g, p, Of(path, s) + [j], level, rem, chunk)
          && (m[s][j].Table? ==> m[s][j].next !in m0))
  }

  /** A part of the block of `at` that lies in a range touches the range. */
  lemma TouchUp(g: Geometry, level: nat, q: seq<nat>, at: nat, chunk: nat, v: nat, size: nat)
    requires g.Valid() && level < |g.block| && q != [] && q[0] == Div(at, g.block[level])
    requires 0 < chunk <= g.block[level] - Mod(at, g.block[level]) && v <= at && at + chunk <= v + size
    requires |q| == 1 || (level > 0 && Touch(g, level - 1, q[1..], Mod(at, g.block[level]), chunk))
    ensures Touch(g, level, q, v, size)
  {
    var b := g.block[level];
    if |q| == 1 {
      assert On(g, level, q, at);
    } else {
      var r: nat :| Mod(at, b) <= r < Mod(at, b) + chunk && On(g, level - 1, q[1..], r);
      var rel := at - Mod(at, b) + r;
      DivShift(at, rel, b);
      assert On(g, level, q, rel);
    }
  }

  /** An entry that touches a range grown by one chunk touches the range or the chunk. */
  lemma TouchDown(g: Geometry, level: nat, q: seq<nat>, v: nat, n: nat, chunk: nat)
    requires g.Valid() && level < |g.block| && q != []
    requires 0 < chunk <= g.block[level] - Mod(v + n, g.block[level]) && Touch(g, level, q, v, n + chunk)
    ensures Touch(g, level, q, v, n)
            || (q[0] == Div(v + n, g.block[level])
                && (|q| == 1 || (level > 0 && Touch(g, level - 1, q[1..], Mod(v + n, g.block[level]), chunk))))
  {
    var b := g.block[level];
    var rel: nat :| v <= rel < v + (n + chunk) && On(g, level, q, rel);
    if rel >= v + n {
      DivShift(v + n, rel, b);
      assert |q| > 1 ==> On(g, level - 1, q[1..], Mod(rel, b));
    } else {
      assert v <= rel < v + n;
    }
  }

  /** Before the block of `v + n` nothing under that block is touched. */
  lemma TouchBefore(g: Geometry, level: nat, q: seq<nat>, v: nat, n: nat)
    requires g.Valid() && level < |g.block| && q != [] && q[0] == Div(v + n, g.block[level])
    requires n == 0 || Mod(v + n, g.block[level]) == 0
    ensures !Touch(g, level, q, v, n)
  {
    forall rel: nat | v <= rel < v + n ensures !On(g, level, q, rel) {
      BlockOrder(rel, v + n, g.block[level]);
    }
  }

  lemma TouchWider(g: Geometry, level: nat, q: seq<nat>, v: nat, size: nat, v': nat, size': nat)
    requires g.Valid() && level < |g.block| && v' <= v && v + size <= v' + size' && Touch(g, level, q, v, size)
    ensures Touch(g, level, q, v', size')
  {
    var rel: nat :| v <= rel < v + size && On(g, level, q, rel);
    assert v' <= rel < v' + size';
  }

  lemma GrowsSelf(g: Geometry, m: Memory, path: Paths, p: seq<nat>, level: nat, v: nat, size: nat)
    requires g.Valid() && level < |g.block|
    ensures Grows(g, m, path, m, path, p, level, v, size) && GrowsEntry(g, m, path, m, path, p, level, v, size)
    ensures Extends(m, m)
  {
    assert forall s :: ExtendsAt(m, m, s);
    assert forall s, j: nat :: GrowsAt(g, m, m, path, p, level, v, size, s, j);
    assert forall s, j: nat :: GrowsEntryAt(g, m, m, path, p, level, v, size, s, j);
  }

  lemma GrowsTrans(g: Geometry, m0: Memory, path0: Paths, m: Memory, path: Paths, m': Memory, path': Paths,
                   p: seq<nat>, level: nat, v: nat, size: nat)
    requires g.Valid() && level < |g.block|
    requires Extends(m0, m) && Grows(g, m0, path0, m, path, p, level, v, size)
    requires Grows(g, m, path, m', path', p, level, v, size)
    ensures Grows(g, m0, path0, m', path', p, level, v, size)
  {
    forall s | s in m0 && s in m' ensures Of(path', s) == Of(path0, s) {
      assert ExtendsAt(m0, m, s);
    }
    forall s, j: nat ensures GrowsAt(g, m0, m', path', p, level, v, size, s, j) {
      assert GrowsAt(g, m, m', path', p, level, v, size, s, j) && GrowsAt(g, m0, m, path, p, level, v, size, s, j);
      assert ExtendsAt(m0, m, s) && (InUse(m', s, j) && m'[s][j].Table? ==> ExtendsAt(m0, m, m'[s][j].next));
    }
  }

  lemma GrowsEntryTrans(g: Geometry, m0: Memory, path0: Paths, m: Memory, path: Paths, m': Memory, path': Paths,
                        p: seq<nat>, level: nat, rem: nat, chunk: nat)
    requires g.Valid() && level < |g.block| && m0.Keys == path0.Keys && m.Keys == path.Keys && m'.Keys == path'.Keys
    requires Extends(m0, m) && GrowsEntry(g, m0, path0, m, path, p, level, rem, chunk)
    requires GrowsEntry(g, m, path, m', path', p, level, rem, chunk)
    ensures GrowsEntry(g, m0, path0, m', path', p, level, rem, chunk)
  {
    forall s | s in m0 && s in m' ensures Of(path', s) == Of(path0, s) {
      assert ExtendsAt(m0, m, s);
    }
    forall s, j: nat ensures GrowsEntryAt(g, m0, m', path', p, level, rem, chunk, s, j) {
      assert GrowsEntryAt(g, m, m', path', p, level, rem, chunk, s, j);
      assert GrowsEntryAt(g, m0, m, path, p, level, rem, chunk, s, j);
      assert ExtendsAt(m0, m, s) && (InUse(m', s, j) && m'[s][j].Table? ==> ExtendsAt(m0, m, m'[s][j].next));
    }
  }

  /** Clearing what was added, or more, leaves nothing else behind. */
  lemma GrowsShrinks(g: Geometry, m0: Memory, path0: Paths, m: Memory, path: Paths, m': Memory, path': Paths,
                     p: seq<nat>, level: nat, v: nat, size: nat)
    requires g.Valid() && level < |g.block| && m0.Keys == path0.Keys && m.Keys == path.Keys && m'.Keys == path'.Keys
    requires Grows(g, m0, path0, m, path, p, level, v, size) && Shrinks(m, path, m', path')
    ensures Grows(g, m0, path0, m', path', p, level, v, size)
  {
    forall s | s in m0 && s in m' ensures path'[s] == path0[s] {
      assert ShrinksAt(m, path, m', path', s);
    }
    forall s, j: nat ensures GrowsAt(g, m0, m', path', p, level, v, size, s, j) {
      assert ShrinksAt(m, path, m', path', s) && GrowsAt(g, m0, m, path, p, level, v, size, s, j);
    }
  }

  /** A wider range. */
  lemma GrowsWider(g: Geometry, m0: Memory, path0: Paths, m: Memory, path: Paths, p: seq<nat>, level: nat, v: nat,
                   size: nat, v': nat, size': nat)
    requires g.Valid() && level < |g.block|
    requires v' <= v && v + size <= v' + size' && Grows(g, m0, path0, m, path, p, level, v, size)
    ensures Grows(g, m0, path0, m, path, p, level, v', size')
  {
    forall s, j: nat ensures GrowsAt(g, m0, m, path, p, level, v', size', s, j) {
      assert GrowsAt(g, m0, m, path, p, level, v, size, s, j);
      if InUse(m, s, j) && !Same(m0, m, s, j) {
        TouchWider(g, level, (Of(path, s) + [j])[|p|..], v, size, v', size');
      }
    }
  }

  /** What a table below adds, the entry that links it adds. */
  lemma GrowsBelow(g: Geometry, m0: Memory, path0: Paths, m: Memory, path: Paths, p: seq<nat>, level: nat, rem: nat,
                   chunk: nat)
    requires g.Valid() && 0 < level < |g.block| && m0.Keys == path0.Keys && m.Keys == path.Keys
    requires Grows(g, m0, path0, m, path, p, level - 1, rem, chunk)
    ensures GrowsEntry(g, m0, path0, m, path, p, level, rem, chunk)
  {
    forall s, j: nat ensures GrowsEntryAt(g, m0, m, path, p, level, rem, chunk, s, j) {
      assert GrowsAt(g, m0, m, path, p, level - 1, rem, chunk, s, j);
      assert s in m && p <= path[s] ==> p <= path[s] + [j];
    }
  }

  /** What one chunk adds, the range it is part of adds. */
  lemma GrowsChunk(g: Geometry, m0: Memory, path0: Paths, m: Memory, path: Paths, p: seq<nat>, level: nat, at: nat,
                   chunk: nat, v: nat, size: nat)
    requires g.Valid() && level < |g.block| && m0.Keys == path0.Keys && m.Keys == path.Keys
    requires 0 < chunk <= g.block[level] - Mod(at, g.block[level]) && v <= at && at + chunk <= v + size
    requires GrowsEntry(g, m0, path0, m, path, p + [Div(at, g.block[level])], level, Mod(at, g.block[level]), chunk)
    ensures Grows(g, m0, path0, m, path, p, level, v, size)
  {
    var i := Div(at, g.block[level]);
    forall s, j: nat ensures GrowsAt(g, m0, m, path, p, level, v, size, s, j) {
      assert GrowsEntryAt(g, m0, m, path, p + [i], level, Mod(at, g.block[level]), chunk, s, j);
      if InUse(m, s, j) && !Same(m0, m, s, j) {
        Below(p, i, path[s], j);
        TouchUp(g, level, (path[s] + [j])[|p|..], at, chunk, v, size);
      }
    }
  }

  lemma Below(p: seq<nat>, i: nat, r: seq<nat>, j: nat)
    requires p + [i] <= r + [j]
    ensures p <= r && (r + [j])[|p|..] != [] && (r + [j])[|p|..][0] == i
    ensures (r + [j])[|p|..][1..] == (r + [j])[|p| + 1..]
  {
    var q := r + [j];
    assert q[|p|] == (p + [i])[|p|];
    assert r == q[..|r|];
  }

  /** A live table below an entry is reached through it. */
  lemma {:induction false} LinkedThrough(g: Geometry, m: Memory, path: Paths, up: Parents, t: nat, i: nat, s: nat)
    requires g.Valid() && Tree(g, m, path, up) && t in m && s in m && path[t] + [i] <= path[s]
    ensures i < |m[t]| && m[t][i].Table?
    decreases |path[s]|
  {
    assert Linked(m, path, up, s);
    var n := |path[s]|;
    if n == |path[t]| + 1 {
      assert path[s][..n - 1] == path[t] && path[s][n - 1] == (path[t] + [i])[|path[t]|];
      assert SamePath(path, up[s], t);
    } else {
      assert path[t] + [i] <= path[up[s]];
      LinkedThrough(g, m, path, up, t, i, up[s]);
    }
  }

  /** An entry that links nothing has nothing under it. */
  lemma TidyEmpty(g: Geometry, m: Memory, path: Paths, up: Parents, t: nat, i: nat, level: nat, rem: nat, chunk: nat)
    requires g.Valid() && level < |g.block| && Tree(g, m, path, up) && t in m && i < |m[t]| && m[t][i].Invalid?
    ensures TidyEntry(g, m, path, path[t] + [i], level, rem, chunk)
  {
    forall s, j: nat ensures TidyEntryAt(g, m, path, path[t] + [i], level, rem, chunk, s, j) {
      if InUse(m, s, j) && InEntry(g, path[t] + [i], path[s] + [j], level, rem, chunk) {
        if path[s] + [j] == path[t] + [i] {
          SameEntry(path[s], j, path[t], i);
          assert SamePath(path, s, t);
        } else {
          Prefix(path[t] + [i], path[s], j);
          LinkedThrough(g, m, path, up, t, i, s);
        }
      }
    }
  }

  lemma SameEntry(p: seq<nat>, i: nat, q: seq<nat>, j: nat)
    requires p + [i] == q + [j]
    ensures p == q && i == j
  {
    assert p == (p + [i])[..|p|] && q == (q + [j])[..|q|];
    assert (p + [i])[|p|] == i;
  }

  lemma Prefix(p: seq<nat>, r: seq<nat>, j: nat)
    requires p <= r + [j] && p != r + [j]
    ensures p <= r
  {
    assert r == (r + [j])[..|r|];
  }

  /** The table below is tidy and not empty, so the entry that links it is. */
  lemma TidyBelow(g: Geometry, m: Memory, path: Paths, up: Parents, t: nat, i: nat, c: nat, level: nat, rem: nat,
                  chunk: nat)
    requires g.Valid() && 0 < level < |g.block| && Tree(g, m, path, up) && t in m && i < |m[t]| && m[t][i] == Table(c)
    requires c in m && !Empty(m, c) && path[c] == path[t] + [i] && Tidy(g, m, path, path[c], level - 1, rem, chunk)
    ensures TidyEntry(g, m, path, path[t] + [i], level, rem, chunk)
  {
    forall s, j: nat ensures TidyEntryAt(g, m, path, path[t] + [i], level, rem, chunk, s, j) {
      if InUse(m, s, j) && InEntry(g, path[t] + [i], path[s] + [j], level, rem, chunk) {
        if path[s] + [j] == path[t] + [i] {
          SameEntry(path[s], j, path[t], i);
          assert SamePath(path, s, t);
        } else {
          Prefix(path[t] + [i], path[s], j);
          assert TidyAt(g, m, path, path[c], level - 1, rem, chunk, s, j);
        }
      }
    }
  }

  /** Unmapping the next chunk keeps what is done tidy and adds the chunk. */
  lemma TidyNext(g: Geometry, m: Memory, path: Paths, up: Parents, m': Memory, path': Paths, t: nat, level: nat,
                 v: nat, n: nat, i: nat, rem: nat, chunk: nat)
    requires g.Valid() && level < |g.block| && Tree(g, m, path, up) && m'.Keys == path'.Keys && t in m
    requires i == Div(v + n, g.block[level]) && rem == Mod(v + n, g.block[level]) && (n == 0 || rem == 0)
    requires 0 < chunk <= g.block[level] - rem
    requires KeptOutsideEntry(m, path, m', path', t, i) && Shrinks(m, path, m', path')
    requires Tidy(g, m, path, path[t], level, v, n) && TidyEntry(g, m', path', path[t] + [i], level, rem, chunk)
    ensures Tidy(g, m', path', path[t], level, v, n + chunk)
  {
    var p, n' := path[t], n + chunk;
    forall s, j: nat ensures TidyAt(g, m', path', p, level, v, n', s, j) {
      if InUse(m', s, j) && p <= path'[s] && Touch(g, level, (path'[s] + [j])[|p|..], v, n') {
        var q := (path'[s] + [j])[|p|..];
        assert path'[s] + [j] == p + q;
        TouchDown(g, level, q, v, n, chunk);
        if q[0] == i {
          TouchBefore(g, level, q, v, n);
          assert path'[s] + [j] == (p + [i]) + q[1..];
          assert TidyEntryAt(g, m', path', p + [i], level, rem, chunk, s, j);
        } else {
          assert ShrinksAt(m, path, m', path', s);
          assert TidyAt(g, m, path, p, level, v, n, s, j);
          assert Child(g, m, path, up, s, j);
          assert (p + q)[|p|] != (p + [i])[|p|];
        }
      }
    }
  }

  lemma ShrinksSelf(m: Memory, path: Paths)
    requires m.Keys == path.Keys
    ensures Shrinks(m, path, m, path)
  {
    assert forall s :: ShrinksAt(m, path, m, path, s);
  }

  lemma ShrinksSet(m: Memory, path: Paths, t: nat, i: nat)
    requires m.Keys == path.Keys && t in m && i < |m[t]|
    ensures Shrinks(m, path, m[t := m[t][i := Invalid]], path)
  {
    var m' := m[t := m[t][i := Invalid]];
    assert forall s :: ShrinksAt(m, path, m', path, s);
  }

  lemma ShrinksDrop(m: Memory, path: Paths, t: nat, i: nat, c: nat)
    requires m.Keys == path.Keys && t in m && i < |m[t]|
    ensures Shrinks(m, path, m[t := m[t][i := Invalid]] - {c}, path - {c})
  {
    var m', path' := m[t := m[t][i := Invalid]] - {c}, path - {c};
    assert forall s :: ShrinksAt(m, path, m', path', s);
  }

  lemma TidyStart(g: Geometry, m: Memory, path: Paths, p: seq<nat>, level: nat, v: nat)
    requires g.Valid() && level < |g.block| && m.Keys == path.Keys
    ensures Tidy(g, m, path, p, level, v, 0)
  {
    assert forall s, j: nat :: TidyAt(g, m, path, p, level, v, 0, s, j);
  }

  /** A table that was not there before, in use after the range it was made for has been unmapped: it would have to
      link another such table, and that one another. */
  lemma {:induction false} NoOrphan(g: Geometry, m0: Memory, path0: Paths, m: Memory, path: Paths, m': Memory,
                                    path': Paths, up': Parents, v: nat, size: nat, c: nat)
    requires g.Valid() && m0.Keys == path0.Keys && m.Keys == path.Keys && Tree(g, m', path', up')
    requires Grows(g, m0, path0, m, path, [], g.Top(), v, size)
    requires Shrinks(m, path, m', path') && Tidy(g, m', path', [], g.Top(), v, size)
    requires c in m' && c !in m0
    ensures Empty(m', c)
    decreases g.Top() - |path'[c]|
  {
    if !Empty(m', c) {
      var j: nat :| j < |m'[c]| && !m'[c][j].Invalid?;
      assert InUse(m', c, j);
      assert ShrinksAt(m, path, m', path', c);
      assert GrowsAt(g, m0, m, path, [], g.Top(), v, size, c, j);
      assert TidyAt(g, m', path', [], g.Top(), v, size, c, j);
      assert Child(g, m', path', up', c, j);
      NoOrphan(g, m0, path0, m, path, m', path', up', v, size, m'[c][j].next);
    }
  }

  lemma OldLinks(g: Geometry, m: Memory, path: Paths, up: Parents)
    requires g.Valid() && Tree(g, m, path, up)
    ensures forall t, j :: t in m && 0 <= j < |m[t]| && m[t][j].Table? ==> m[t][j].next in m
  {
    forall t, j | t in m && 0 <= j < |m[t]| && m[t][j].Table? ensures m[t][j].next in m {
      assert Child(g, m, path, up, t, j);
    }
  }

  lemma OrphanUsed(g: Geometry, m0: Memory, path0: Paths, up0: Parents, m: Memory, path: Paths, m': Memory,
                   path': Paths, up': Parents, v: nat, size: nat, c: nat)
    requires g.Valid() && Tree(g, m0, path0, up0) && m.Keys == path.Keys && Tree(g, m', path', up')
    requires Grows(g, m0, path0, m, path, [], g.Top(), v, size)
    requires Shrinks(m, path, m', path') && Tidy(g, m', path', [], g.Top(), v, size)
    requires c in m' && c !in m0
    ensures !Empty(m', c)
  {
    OldLinks(g, m0, path0, up0);
    assert Linked(m', path', up', c);
    var t, j := up'[c], path'[c][|path'[c]| - 1];
    assert InUse(m', t, j);
    assert ShrinksAt(m, path, m', path', t);
    assert GrowsAt(g, m0, m, path, [], g.Top(), v, size, t, j);
    assert TidyAt(g, m', path', [], g.Top(), v, size, t, j);
  }

  /** Unmapping the range that tables were made for frees every one of them. */
  lemma NoneLeft(g: Geometry, m0: Memory, path0: Paths, up0: Parents, m: Memory, path: Paths, m': Memory, path': Paths,
                 up': Parents, v: nat, size: nat)
    requires g.Valid() && Tree(g, m0, path0, up0) && m.Keys == path.Keys && Tree(g, m', path', up')
    requires Grows(g, m0, path0, m, path, [], g.Top(), v, size)
    requires Shrinks(m, path, m', path') && Tidy(g, m', path', [], g.Top(), v, size)
    ensures m'.Keys <= m0.Keys
  {
    forall c | c in m' ensures c in m0 {
      if c !in m0 {
        OrphanUsed(g, m0, path0, up0, m, path, m', path', up', v, size, c);
        NoOrphan(g, m0, path0, m, path, m', path', up', v, size, c);
      }
    }
  }

  /** Setting one entry adds just that entry. */
  lemma GrowsSet(g: Geometry, m: Memory, path: Paths, t: nat, i: nat, e: Pte, level: nat, rem: nat, chunk: nat)
    requires g.Valid() && level < |g.block| && m.Keys == path.Keys && t in m && i < |m[t]| && !e.Table?
    requires m[t][i].Invalid?
    ensures var m': Memory := m[t := m[t][i := e]];
            Extends(m, m') && GrowsEntry(g, m, path, m', path, path[t] + [i], level, rem, chunk)
  {
    var m': Memory := m[t := m[t][i := e]];
    var p := path[t] + [i];
    assert forall s :: ExtendsAt(m, m', s);
    forall s, j: nat ensures GrowsEntryAt(g, m, m', path, p, level, rem, chunk, s, j) {
    }
  }

  /** So does linking a fresh table, which was no table before. */
  lemma GrowsLink(g: Geometry, m: Memory, path: Paths, t: nat, i: nat, c: nat, n: nat, level: nat, rem: nat, chunk: nat)
    requires g.Valid() && level < |g.block| && m.Keys == path.Keys && t in m && i < |m[t]| && c !in m
    requires m[t][i].Invalid?
    ensures var m': Memory := m[c := Fresh(n)][t := m[t][i := Table(c)]];
            Extends(m, m') && GrowsEntry(g, m, path, m', path[c := path[t] + [i]], path[t] + [i], level, rem, chunk)
  {
    var m': Memory := m[c := Fresh(n)][t := m[t][i := Table(c)]];
    var p, path' := path[t] + [i], path[c := path[t] + [i]];
    assert forall s :: ExtendsAt(m, m', s);
    forall s, j: nat ensures GrowsEntryAt(g, m, m', path', p, level, rem, chunk, s, j) {
    }
  }

  /** The next chunk of a mapping. */
  lemma GrowsNext(g: Geometry, m0: Memory, path0: Paths, m: Memory, path: Paths, m': Memory, path': Paths, p: seq<nat>,
                  level: nat, at: nat, i: nat, rem: nat, chunk: nat, v: nat, size: nat)
    requires g.Valid() && level < |g.block| && m0.Keys == path0.Keys && m.Keys == path.Keys && m'.Keys == path'.Keys
    requires 0 < chunk <= g.block[level] - rem && v <= at && at + chunk <= v + size
    requires i == Div(at, g.block[level]) && rem == Mod(at, g.block[level])
    requires Extends(m0, m) && Grows(g, m0, path0, m, path, p, level, v, size)
    requires GrowsEntry(g, m, path, m', path', p + [i], level, rem, chunk)
    ensures Grows(g, m0, path0, m', path', p, level, v, size)
  {
    GrowsChunk(g, m, path, m', path', p, level, at, chunk, v, size);
    GrowsTrans(g, m0, path0, m, path, m', path', p, level, v, size);
  }
}
