/** top/init.c: the init hooks are called by level, by scanning the whole table again for each call. */
module Init {
  import opened Arith

  datatype Hook = Hook(level: nat, flags: bv32)

  predicate Flagged(h: Hook, required: bv32) {
    h.flags & required != 0
  }

  /** The hooks one call of lk_init_level is for. */
  predicate Wanted(table: seq<Hook>, required: bv32, start: nat, stop: nat, i: nat) {
    i < |table| && Flagged(table[i], required) && start <= table[i].level <= stop
  }

  /** Lower level first; the same level in table order. */
  predicate Before(table: seq<Hook>, i: nat, j: nat) {
    i < |table| && j < |table| &&
    (table[i].level < table[j].level || (table[i].level == table[j].level && i < j))
  }

  ghost predicate Ordered(table: seq<Hook>, s: seq<nat>) {
    && (forall n :: 0 <= n < |s| ==> s[n] < |table|)
    && forall m, n :: 0 <= m < n < |s| ==> Before(table, s[m], s[n])
  }

  /** The scan has not found a hook it should have: `i` is wanted and comes after the last one called. */
  ghost predicate Pending(table: seq<Hook>, required: bv32, start: nat, stop: nat, last: Option<nat>, i: nat) {
    Wanted(table, required, start, stop, i) && (last.Some? ==> Before(table, last.value, i))
  }

  /** One scan of lk_init_level: the first pending hook, in order of level and then of place. */
  method Scan(table: seq<Hook>, required: bv32, start: nat, stop: nat, last: Option<nat>) returns (found: Option<nat>)
    requires 0 < start && (last.Some? ==> Wanted(table, required, start, stop, last.value))
    ensures found.Some? ==> Pending(table, required, start, stop, last, found.value)
    ensures found.Some? ==>
              forall i: nat :: Pending(table, required, start, stop, last, i) && i != found.value
                               ==> Before(table, found.value, i)
    ensures found.None? ==> forall i: nat :: !Pending(table, required, start, stop, last, i)
  {
    var called := if last.Some? then table[last.value].level else start - 1;
    found := None;
    var seen := false;
    var i := 0;
    while i < |table|
      invariant i <= |table| && (seen <==> last.Some? && last.value < i)
      invariant found.Some? ==> && found.value < i && called < table[found.value].level
                                && Pending(table, required, start, stop, last, found.value)
      invariant forall j: nat :: j < i && Pending(table, required, start, stop, last, j) ==>
                                   && called < table[j].level && found.Some?
                                   && (j == found.value || Before(table, found.value, j))
    {
      if Some(i) == last {
        seen := true;
      }
      if !Flagged(table[i], required) {
      } else if table[i].level > stop {
      } else if table[i].level < called {
      } else if found.Some? && table[found.value].level <= table[i].level {
      } else if table[i].level >= start && table[i].level > called {
        found := Some(i);
      } else if table[i].level == called && Some(i) != last && seen {
        found := Some(i);
        return;
      }
      i := i + 1;
    }
  }

  /** lk_init_level; `calls` lists the hooks in the order in which they are called. */
  method InitLevel(table: seq<Hook>, required: bv32, start: nat, stop: nat) returns (calls: seq<nat>)
    requires 0 < start
    ensures Ordered(table, calls) && forall i: nat :: i in calls <==> Wanted(table, required, start, stop, i)
    ensures calls == StableSort(table, WantedUpTo(table, required, start, stop, |table|))
  {
    calls := [];
    var last := None;
    var found := Scan(table, required, start, stop, last);
    while found.Some?
      invariant Ordered(table, calls) && (last.Some? ==> Wanted(table, required, start, stop, last.value))
      invariant last == if calls == [] then None else Some(calls[|calls| - 1])
      invariant forall i: nat :: i in calls ==> Wanted(table, required, start, stop, i)
      invariant forall i: nat :: Wanted(table, required, start, stop, i) && i !in calls ==>
                  Pending(table, required, start, stop, last, i)
      invariant found.Some? ==> Pending(table, required, start, stop, last, found.value)
      invariant found.Some? ==>
                  forall i: nat :: Pending(table, required, start, stop, last, i) && i != found.value
                                   ==> Before(table, found.value, i)
      invariant found.None? ==> forall i: nat :: !Pending(table, required, start, stop, last, i)
      decreases if last.None? then stop + 1 else stop - table[last.value].level,
                if last.None? then 0 else |table| - last.value
    {
      Extended(table, calls, found.value);
      calls := calls + [found.value];
      last := found;
      found := Scan(table, required, start, stop, last);
    }
    ghost var w := WantedUpTo(table, required, start, stop, |table|);
    SortOrdered(table, w);
    OrderedUnique(table, calls, StableSort(table, w));
  }

  /** A hook after the last one keeps the list in order. */
  lemma Extended(table: seq<Hook>, s: seq<nat>, x: nat)
    requires Ordered(table, s) && x < |table| && (s != [] ==> Before(table, s[|s| - 1], x))
    ensures Ordered(table, s + [x])
  {
    var r := s + [x];
    forall m, n | 0 <= m < n < |r| ensures Before(table, r[m], r[n]) {
      assert n < |s| ==> Before(table, s[m], s[n]);
      assert m < |s| - 1 ==> Before(table, s[m], s[|s| - 1]);
    }
  }

  /** A part of the table, in table order. */
  ghost predicate Ascending(table: seq<Hook>, s: seq<nat>) {
    && (forall n :: 0 <= n < |s| ==> s[n] < |table|)
    && forall m, n :: 0 <= m < n < |s| ==> s[m] < s[n]
  }

  /** The wanted hooks among the first `n`, in table order. */
  function WantedUpTo(table: seq<Hook>, required: bv32, start: nat, stop: nat, n: nat): (r: seq<nat>)
    ensures forall i: nat :: i in r <==> i < n && Wanted(table, required, start, stop, i)
    ensures Ascending(table, r)
  {
    if n == 0 then []
    else
      var rest := WantedUpTo(table, required, start, stop, n - 1);
      assert forall i :: 0 <= i < |rest| ==> rest[i] in rest;
      if Wanted(table, required, start, stop, n - 1) then rest + [n - 1] else rest
  }

  /** Insertion sort by level alone; a hook goes before those of its own level that came after it. */
  function StableSort(table: seq<Hook>, s: seq<nat>): seq<nat> {
    if s == [] then [] else Insert(table, s[0], StableSort(table, s[1..]))
  }

  function Insert(table: seq<Hook>, x: nat, s: seq<nat>): seq<nat> {
    if s == [] || x >= |table| || s[0] >= |table| || table[x].level <= table[s[0]].level then [x] + s
    else [s[0]] + Insert(table, x, s[1..])
  }

  lemma {:induction false} InsertOrdered(table: seq<Hook>, x: nat, s: seq<nat>)
    requires Ordered(table, s) && x < |table| && forall y :: y in s ==> x < y
    ensures Ordered(table, Insert(table, x, s)) && forall y :: y in Insert(table, x, s) <==> y == x || y in s
  {
    if s != [] && table[x].level > table[s[0]].level {
      Tails(table, s);
      InsertOrdered(table, x, s[1..]);
      Headed(table, s[0], Insert(table, x, s[1..]));
    } else {
      assert s != [] ==> s[0] in s;
      Headed(table, x, s);
    }
  }

  lemma Headed(table: seq<Hook>, x: nat, s: seq<nat>)
    requires Ordered(table, s) && x < |table| && forall y :: y in s ==> Before(table, x, y)
    ensures Ordered(table, [x] + s)
  {
  }

  lemma {:induction false} SortOrdered(table: seq<Hook>, s: seq<nat>)
    requires Ascending(table, s)
    ensures Ordered(table, StableSort(table, s)) && forall y :: y in StableSort(table, s) <==> y in s
  {
    if s != [] {
      SortOrdered(table, s[1..]);
      assert forall y :: y in s[1..] ==> s[0] < y;
      InsertOrdered(table, s[0], StableSort(table, s[1..]));
    }
  }

  /** A set of hooks can be put in order in one way only. */
  lemma {:induction false} OrderedUnique(table: seq<Hook>, a: seq<nat>, b: seq<nat>)
    requires Ordered(table, a) && Ordered(table, b) && forall x :: x in a <==> x in b
    ensures a == b
  {
    Inhabited(a);
    Inhabited(b);
    if a != [] && b != [] {
      assert a[0] in b && b[0] in a;
      assert a[0] == b[0];
      Tails(table, a);
      Tails(table, b);
      OrderedUnique(table, a[1..], b[1..]);
    }
  }

  lemma Inhabited(a: seq<nat>)
    ensures a != [] ==> exists x :: x in a
  {
    assert a != [] ==> a[0] in a;
  }

  lemma Tails(table: seq<Hook>, a: seq<nat>)
    requires Ordered(table, a) && a != []
    ensures Ordered(table, a[1..]) && forall x :: x in a[1..] <==> x in a && x != a[0]
  {
    assert forall n :: 0 < n < |a| ==> Before(table, a[0], a[n]);
  }
}
