/** Powers of two, rounding, block arithmetic and list facts shared by the other modules. */
module Arith {

  datatype Option<T> = None | Some(value: T)

  /** 64-bit addresses wrap here. */
  const WORD: nat := 0x1_0000_0000_0000_0000

  /** The value of `1 << n`. */
  function Pow2(n: nat): (r: nat)
    ensures r > 0
  {
    if n == 0 then 1 else 2 * Pow2(n - 1)
  }

  lemma {:induction false} Pow2Add(a: nat, b: nat)
    ensures Pow2(a + b) == Pow2(a) * Pow2(b)
  {
    if a > 0 {
      Pow2Add(a - 1, b);
      assert Pow2(a + b) == 2 * Pow2(a - 1 + b);
    }
  }

  /** ROUNDUP(x, n): the least multiple of `n` that is at least `x`. */
  function RoundUp(x: nat, n: nat): (r: nat)
    requires n > 0
    ensures Mod(r, n) == 0 && x <= r < x + n
  {
    ChunkStep(x, n - Mod(x, n), n);
    if Mod(x, n) == 0 then x else x + (n - Mod(x, n))
  }

  lemma MulMod(q: nat, n: nat)
    requires n > 0
    ensures (n * q) % n == 0 && (n * q) / n == q
  {
    DivModUnique(n * q, n, q, 0);
  }

  /** Quotient and remainder are determined by the division equation. */
  lemma DivModUnique(x: nat, n: nat, q: nat, r: nat)
    requires n > 0 && x == n * q + r && r < n
    ensures x / n == q && x % n == r
  {
    MulMono(n, q + 1, x / n);
    MulMono(n, x / n + 1, q);
  }

  lemma MulMono(n: nat, a: nat, b: nat)
    ensures a <= b ==> n * a <= n * b
  {
    if a <= b {
      assert n * b == n * a + n * (b - a);
    }
  }

  lemma RoundUpLeast(x: nat, n: nat, y: nat)
    requires n > 0 && x <= y && Mod(y, n) == 0
    ensures RoundUp(x, n) <= y
  {
    BlockOrder(x, y, n);
    DivMono(x, y, n);
  }

  lemma SumMod(x: nat, y: nat, n: nat)
    requires n > 0 && x % n == 0
    ensures (x + y) % n == y % n && (x + y) / n == x / n + y / n
  {
    assert x == n * (x / n) && y == n * (y / n) + y % n;
    assert n * (x / n) + n * (y / n) == n * (x / n + y / n);
    DivModUnique(x + y, n, x / n + y / n, y % n);
  }

  predicate NoDup<T(==)>(s: seq<T>) {
    forall i, j :: 0 <= i < j < |s| ==> s[i] != s[j]
  }

  function Elems<T(==)>(s: seq<T>): set<T> {
    set x | x in s
  }

  lemma {:induction false} ElemsSize<T>(s: seq<T>)
    requires NoDup(s)
    ensures |Elems(s)| == |s|
  {
    if s != [] {
      ElemsSize(s[1..]);
      assert Elems(s) == Elems(s[1..]) + {s[0]};
    }
  }

  /** The number of elements of a set, kept from the solver's own arithmetic on set sizes, which is slow. */
  ghost function Card<T>(s: set<T>): nat {
    if s == {} then 0 else var x :| x in s; 1 + Card(s - {x})
  }

  lemma {:induction false} CardIs<T>(s: set<T>)
    ensures Card(s) == |s|
  {
    if s != {} {
      var x :| x in s && Card(s) == 1 + Card(s - {x});
      CardIs(s - {x});
    }
  }

  lemma CardSum<T>(a: set<T>, b: set<T>)
    requires a !! b
    ensures Card(a + b) == Card(a) + Card(b)
  {
    CardIs(a);
    CardIs(b);
    CardIs(a + b);
  }

  /** Quotient and remainder by repeated subtraction: `x >> s` and `x & ((1 << s) - 1)` when `n` is `1 << s`. */
  function Div(x: nat, n: nat): nat
    requires n > 0
  {
    if x < n then 0 else 1 + Div(x - n, n)
  }

  function Mod(x: nat, n: nat): (r: nat)
    requires n > 0
    ensures r < n && r <= x
  {
    if x < n then x else Mod(x - n, n)
  }

  lemma {:induction false} DivMod(x: nat, n: nat)
    requires n > 0
    ensures x == n * Div(x, n) + Mod(x, n)
    ensures Div(x, n) == x / n && Mod(x, n) == x % n
  {
    if x < n {
      DivModUnique(x, n, 0, x);
    } else {
      DivMod(x - n, n);
      assert n * Div(x, n) == n + n * Div(x - n, n);
      DivModUnique(x, n, Div(x, n), Mod(x, n));
    }
  }

  /** Moving inside one block keeps the quotient. */
  lemma {:induction false} DivShift(x: nat, y: nat, n: nat)
    requires n > 0 && x <= y + Mod(x, n) && y + Mod(x, n) < x + n
    ensures Div(y, n) == Div(x, n) && Mod(y, n) == Mod(x, n) + y - x
  {
    if x >= n {
      DivShift(x - n, y - n, n);
    }
  }

  /** The block of `x` ends no later than any multiple of the block size above `x`. */
  lemma {:induction false} BlockRoom(x: nat, n: nat, k: nat)
    requires n > 0 && x < n * k
    ensures x - Mod(x, n) + n <= n * k
  {
    DivMod(x, n);
    MulMono(n, k, Div(x, n));
    MulMono(n, Div(x, n) + 1, k);
  }

  /** Blocks of `n` bytes: same quotient, same block; smaller quotient, a block that ends before. */
  lemma BlockOrder(x: nat, y: nat, n: nat)
    requires n > 0
    ensures Div(x, n) == Div(y, n) ==> x - Mod(x, n) == y - Mod(y, n)
    ensures Div(x, n) < Div(y, n) ==> x - Mod(x, n) + n <= y - Mod(y, n)
  {
    DivMod(x, n);
    DivMod(y, n);
    MulMono(n, Div(x, n) + 1, Div(y, n));
  }

  lemma ModAdd(x: nat, y: nat, n: nat)
    requires n > 0 && Mod(x, n) == 0
    ensures Mod(x + y, n) == Mod(y, n) && Div(x + y, n) == Div(x, n) + Div(y, n)
  {
    DivMod(x, n);
    DivMod(y, n);
    DivMod(x + y, n);
    SumMod(x, y, n);
  }

  lemma ModSub(x: nat, y: nat, n: nat)
    requires n > 0 && y <= x && Mod(x, n) == 0 && Mod(y, n) == 0
    ensures Mod(x - y, n) == 0
  {
    ModAdd(y, x - y, n);
  }

  lemma ModMul(q: nat, n: nat, k: nat)
    requires n > 0 && Mod(k, n) == 0
    ensures Mod(k * q, n) == 0
    decreases q
  {
    if q > 0 {
      ModMul(q - 1, n, k);
      assert k * q == k * (q - 1) + k;
      ModAdd(k * (q - 1), k, n);
    }
  }

  /** The remainder modulo a multiple of `n` of a multiple of `n` is a multiple of `n`. */
  lemma ModNested(x: nat, b: nat, n: nat)
    requires n > 0 && b > 0 && Mod(b, n) == 0 && Mod(x, n) == 0
    ensures Mod(Mod(x, b), n) == 0
  {
    DivMod(x, b);
    ModMul(Div(x, b), n, b);
    ModSub(x, b * Div(x, b), n);
  }

  /** Stepping forward inside a block, or exactly to its end. */
  lemma {:induction false} ChunkStep(x: nat, chunk: nat, b: nat)
    requires b > 0 && chunk <= b - Mod(x, b)
    ensures if chunk == b - Mod(x, b) then Mod(x + chunk, b) == 0 && Div(x + chunk, b) == Div(x, b) + 1
            else Mod(x + chunk, b) == Mod(x, b) + chunk && Div(x + chunk, b) == Div(x, b)
  {
    if x >= b {
      ChunkStep(x - b, chunk, b);
    }
  }

  lemma DivBound(x: nat, n: nat, k: nat)
    requires n > 0
    ensures x < n * k ==> Div(x, n) < k
    ensures x == n * k ==> Div(x, n) == k
  {
    DivMod(x, n);
    MulMono(n, k, Div(x, n));
    MulMono(n, k + 1, Div(x, n));
    MulMono(n, Div(x, n) + 1, k);
  }

  lemma {:induction false} DivMono(x: nat, y: nat, n: nat)
    requires n > 0 && x <= y
    ensures Div(x, n) <= Div(y, n)
  {
    if x >= n {
      DivMono(x - n, y - n, n);
    }
  }
}
