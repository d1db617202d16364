/** Reading a ring buffer as a sequence. */
module Rings {

  /** `x` modulo the size of the ring, for `x` less than twice the size. */
  function Wrap(x: nat, size: nat): nat {
    if x < size then x else x - size
  }

  /** The `n` elements from index `head` on, going round at the end. */
  function Unroll<T>(a: seq<T>, head: nat, n: nat): (r: seq<T>)
    requires head < |a| && n <= |a|
    ensures |r| == n
  {
    if n == 0 then [] else Unroll(a, head, n - 1) + [a[Wrap(head + n - 1, |a|)]]
  }

  lemma {:induction false} UnrollAt<T>(a: seq<T>, head: nat, n: nat, i: nat)
    requires head < |a| && n <= |a| && i < n
    ensures Unroll(a, head, n)[i] == a[Wrap(head + i, |a|)]
  {
    if i < n - 1 {
      UnrollAt(a, head, n - 1, i);
    }
  }

  /** Storing outside the part in use changes nothing in it. */
  lemma {:induction false} UnrollFrame<T>(a: seq<T>, head: nat, n: nat, k: nat, x: T)
    requires head < |a| && n <= k < |a|
    ensures Unroll(a[Wrap(head + k, |a|) := x], head, n) == Unroll(a, head, n)
  {
    if n > 0 {
      UnrollFrame(a, head, n - 1, k, x);
    }
  }

  /** Storing just behind the last element appends. */
  lemma UnrollPush<T>(a: seq<T>, head: nat, n: nat, x: T)
    requires head < |a| && n < |a|
    ensures Unroll(a[Wrap(head + n, |a|) := x], head, n + 1) == Unroll(a, head, n) + [x]
  {
    UnrollFrame(a, head, n, n, x);
  }

  /** Moving the head over `k` elements drops them. */
  lemma {:induction false} UnrollDrop<T>(a: seq<T>, head: nat, n: nat, k: nat)
    requires head < |a| && k <= n <= |a|
    ensures Wrap(head + k, |a|) < |a| && Unroll(a, Wrap(head + k, |a|), n - k) == Unroll(a, head, n)[k..]
  {
    if k < n {
      UnrollDrop(a, head, n - 1, k);
      assert Wrap(Wrap(head + k, |a|) + (n - k) - 1, |a|) == Wrap(head + n - 1, |a|);
    }
  }

  /** Elements that lie in one piece of the array, and where a part that goes round is cut. */
  lemma {:induction false} UnrollSlice<T>(a: seq<T>, head: nat, n: nat)
    requires head < |a| && n <= |a|
    ensures head + n <= |a| ==> Unroll(a, head, n) == a[head..head + n]
    ensures head + n > |a| ==> Unroll(a, head, n) == a[head..] + a[..head + n - |a|]
  {
    if n > 0 {
      UnrollSlice(a, head, n - 1);
    }
  }
}
