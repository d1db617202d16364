/** lib/cbuf/cbuf.c: a circular buffer of 2^n bytes that holds up to 2^n - 1, with an event that readers wait on. */
module Cbuf {
  import opened Arith
  import opened Rings
  import opened Sched
  import opened Kernel
  import opened Events

  const UINT: nat := 0x1_0000_0000

  type Byte = bv8

  /** cbuf_space_used: the difference taken in 32 bits, then modulo the size. */
  function SpaceUsed(head: nat, tail: nat, size: nat): nat
    requires size > 0 && tail < UINT
  {
    Mod(if head >= tail then head - tail else UINT - (tail - head), size)
  }

  /** Because the size is a power of two, the two reductions together give the distance around the ring. */
  lemma SpaceUsedExact(head: nat, tail: nat, size: nat, p: nat)
    requires size == Pow2(p) && p <= 31 && head < size && tail < size
    ensures tail < UINT
    ensures SpaceUsed(head, tail, size) == if head >= tail then head - tail else head + size - tail
  {
    UintPow2();
    Pow2Multiple(p, 32 - p);
    if head < tail {
      ModSub(UINT, size, size);
      ModAdd(UINT - size, size - (tail - head), size);
    }
  }

  lemma UintPow2()
    ensures Pow2(32) == UINT
  {
    assert Pow2(8) == 256;
    Pow2Add(8, 8);
    Pow2Add(16, 16);
  }

  lemma {:induction false} Pow2Multiple(p: nat, k: nat)
    ensures Mod(Pow2(p + k), Pow2(p)) == 0 && Pow2(p) <= Pow2(p + k)
  {
    if k > 0 {
      Pow2Multiple(p, k - 1);
      ModAdd(Pow2(p + k - 1), Pow2(p + k - 1), Pow2(p));
      assert Pow2(p + k) == Pow2(p + k - 1) + Pow2(p + k - 1);
    }
  }

  /** The bytes a write brings: zeros when it is given no buffer. */
  function Source(src: Option<seq<Byte>>, len: nat): (r: seq<Byte>)
    requires src.Some? ==> |src.value| == len
    ensures |r| == len
  {
    if src.Some? then src.value else seq(len, i => 0)
  }

  function Min(a: nat, b: nat): nat {
    if a < b then a else b
  }

  /** Storing a run just behind the last element appends it. */
  lemma UnrollStore(a: seq<Byte>, head: nat, n: nat, at: nat, piece: seq<Byte>)
    requires head < |a| && n + |piece| <= |a| && at + |piece| <= |a| && (|piece| > 0 ==> at == Wrap(head + n, |a|))
    ensures var b := a[..at] + piece + a[at + |piece|..];
            |b| == |a| && Unroll(b, head, n + |piece|) == Unroll(a, head, n) + piece
  {
    var b := a[..at] + piece + a[at + |piece|..];
    var u, w := Unroll(b, head, n + |piece|), Unroll(a, head, n) + piece;
    forall i | 0 <= i < n + |piece| ensures u[i] == w[i] {
      UnrollAt(b, head, n + |piece|, i);
      if i < n {
        UnrollAt(a, head, n, i);
      }
      StoredAt(a, head, n, at, piece, i);
    }
  }

  /** Behind the first `n` elements the run is found, and the elements themselves are where they were. */
  lemma StoredAt(a: seq<Byte>, head: nat, n: nat, at: nat, piece: seq<Byte>, i: nat)
    requires head < |a| && n + |piece| <= |a| && at + |piece| <= |a| && (|piece| > 0 ==> at == Wrap(head + n, |a|))
    requires i < n + |piece|
    ensures (a[..at] + piece + a[at + |piece|..])[Wrap(head + i, |a|)]
         == if i < n then a[Wrap(head + i, |a|)] else piece[i - n]
  {
    Stored(a, at, piece, Wrap(head + i, |a|));
  }

  lemma Stored(a: seq<Byte>, at: nat, piece: seq<Byte>, j: nat)
    requires at + |piece| <= |a| && j < |a|
    ensures (a[..at] + piece + a[at + |piece|..])[j] == if at <= j < at + |piece| then piece[j - at] else a[j]
  {
  }

  lemma TakeOn(a: seq<Byte>, b: seq<Byte>, pos: nat, n: nat)
    requires pos + n <= |b|
    ensures a + b[..pos] + b[pos..pos + n] == a + b[..pos + n]
  {
  }

  class Circular {
    const k: Scheduler
    const event: Event
    const pow: nat
    const buf: array<Byte>
    var head: nat
    var tail: nat

    /** The event is signalled exactly while there is something to read. */
    ghost predicate Valid()
      reads this, k, buf, event
    {
      && pow <= 31 && buf.Length == Pow2(pow) && head < buf.Length && tail < buf.Length
      && event.k == k && event.Valid() && !event.auto && (event.signaled <==> head != tail)
    }

    ghost function Used(): nat
      reads this, buf
      requires tail < buf.Length
    {
      if head >= tail then head - tail else head + buf.Length - tail
    }

    ghost function Contents(): (s: seq<Byte>)
      reads this, buf
      requires head < buf.Length && tail < buf.Length
      ensures |s| == Used()
    {
      Unroll(buf[..], tail, Used())
    }

    /** cbuf_initialize */
    constructor (k: Scheduler, event: Event, pow: nat)
      requires pow <= 31 && event.k == k && event.Valid() && !event.auto && !event.signaled
      ensures Valid() && Contents() == [] && this.k == k && this.event == event && buf.Length == Pow2(pow) && fresh(buf)
    {
      this.k, this.event, this.pow := k, event, pow;
      buf := new Byte[Pow2(pow)](i => 0);
      head, tail := 0, 0;
    }

    /** cbuf_space_avail */
    method SpaceAvail() returns (n: nat)
      requires pow <= 31 && buf.Length == Pow2(pow) && head < buf.Length && tail < buf.Length
      ensures n == buf.Length - 1 - Used()
    {
      SpaceUsedExact(head, tail, buf.Length, pow);
      var consumed := SpaceUsed(head, tail, buf.Length);
      n := buf.Length - consumed - 1;
    }

    /** The length of the next run of cbuf_write. */
    method RunLength(left: nat) returns (n: nat)
      requires head < buf.Length && tail < buf.Length
      ensures n <= left && n <= buf.Length - 1 - Used() && head + n <= buf.Length
      ensures left > 0 && Used() < buf.Length - 1 ==> n > 0
    {
      if head >= tail {
        if tail == 0 {
          n := Min(buf.Length - head - 1, left);
        } else {
          n := Min(buf.Length - head, left);
        }
      } else {
        n := Min(tail - head - 1, left);
      }
    }

    /** One pass of cbuf_write: copy a run behind the head. */
    method StoreRun(piece: seq<Byte>)
      requires head < buf.Length && tail < buf.Length && |piece| <= buf.Length - 1 - Used()
      requires head + |piece| <= buf.Length
      modifies this`head, buf
      ensures head < buf.Length && Contents() == old(Contents()) + piece
    {
      ghost var n := Used();
      CopyIn(piece);
      UnrollStore(old(buf[..]), tail, n, head, piece);
      head := Wrap(head + |piece|, buf.Length);
      assert Used() == n + |piece|;
    }

    method CopyIn(piece: seq<Byte>)
      requires head + |piece| <= buf.Length
      modifies buf
      ensures buf[..] == old(buf[..])[..head] + piece + old(buf[..])[head + |piece|..]
    {
      forall i | 0 <= i < |piece| {
        buf[head + i] := piece[i];
      }
    }

    /** cbuf_write by a thread on `c`: as many bytes as there is room for. */
    method Write(c: nat, src: Option<seq<Byte>>, len: nat) returns (pos: nat)
      requires Valid() && OnCpu(k.View(), c) && (src.Some? ==> |src.value| == len)
      modifies this`head, buf, event, k
      ensures Valid() && pos == Min(len, buf.Length - 1 - old(Used()))
      ensures Contents() == old(Contents()) + Source(src, len)[..pos]
    {
      pos := Fill(Source(src, len));
      if head != tail {
        var st := event.EventSignal(c, false);
      }
    }

    /** The loop of cbuf_write. */
    method Fill(data: seq<Byte>) returns (pos: nat)
      requires pow <= 31 && buf.Length == Pow2(pow) && head < buf.Length && tail < buf.Length
      modifies this`head, buf
      ensures head < buf.Length && pos == Min(|data|, buf.Length - 1 - old(Used()))
      ensures Contents() == old(Contents()) + data[..pos]
    {
      pos := 0;
      var room := SpaceAvail();
      while pos < |data| && room > 0
        invariant pos <= |data| && head < buf.Length && room == buf.Length - 1 - Used()
        invariant pos + room == buf.Length - 1 - old(Used())
        invariant Contents() == old(Contents()) + data[..pos]
        decreases |data| - pos
      {
        var n := RunLength(|data| - pos);
        if n == 0 {
          break;
        }
        StoreRun(data[pos..pos + n]);
        TakeOn(old(Contents()), data, pos, n);
        pos := pos + n;
        room := SpaceAvail();
      }
    }

    /** The loop of cbuf_read: at most two runs. */
    method Drain(buflen: nat) returns (out: seq<Byte>)
      requires head < buf.Length && tail < buf.Length
      modifies this`tail
      ensures tail < buf.Length && |out| == Min(buflen, old(Used()))
      ensures out == old(Contents())[..|out|] && Contents() == old(Contents())[|out|..]
    {
      out := [];
      ghost var all := Contents();
      while |out| < buflen && tail != head
        invariant tail < buf.Length && |out| <= buflen && |out| + Used() == |all|
        invariant out == all[..|out|] && Contents() == all[|out|..]
        decreases buflen - |out|
      {
        assert |out| + |Contents()| == |all|;
        var piece := LoadRun(buflen - |out|);
        DropOn(all, out, piece);
        out := out + piece;
      }
    }

    /** One pass of cbuf_read: copy a run from the tail on. */
    method LoadRun(left: nat) returns (piece: seq<Byte>)
      requires head < buf.Length && tail < buf.Length && tail != head && 0 < left
      modifies this`tail
      ensures tail < buf.Length && 0 < |piece| <= Min(left, old(Used()))
      ensures piece == old(Contents())[..|piece|] && Contents() == old(Contents())[|piece|..]
    {
      var n := Min(if head > tail then head - tail else buf.Length - tail, left);
      TakeRun(buf[..], tail, Used(), n);
      piece := buf[tail..tail + n];
      tail := Wrap(tail + n, buf.Length);
    }

    /** cbuf_read, from taking the lock to giving it back: the oldest bytes, as many as there are or as fit. */
    method Read(buflen: nat) returns (out: seq<Byte>)
      requires Valid()
      modifies this`tail, event
      ensures Valid() && |out| == Min(buflen, old(Used()))
      ensures out == old(Contents())[..|out|] && Contents() == old(Contents())[|out|..]
    {
      out := [];
      if tail != head {
        out := Drain(buflen);
        if tail == head {
          var st := event.EventUnsignal();
        }
      }
    }

    /** cbuf_peek: the contents as two pieces of the array, offset and length each. */
    method Peek() returns (a: (nat, nat), b: (nat, nat))
      requires Valid()
      ensures a.0 + a.1 <= buf.Length && b.0 + b.1 <= buf.Length
      ensures buf[a.0..a.0 + a.1] + buf[b.0..b.0 + b.1] == Contents()
    {
      SpaceUsedExact(head, tail, buf.Length, pow);
      UnrollSlice(buf[..], tail, Used());
      var n := SpaceUsed(head, tail, buf.Length);
      if n + tail > buf.Length {
        a := (tail, buf.Length - tail);
        b := (0, n - (buf.Length - tail));
      } else {
        a, b := (tail, n), (0, 0);
      }
    }

    /** cbuf_write_char */
    method WriteChar(c: nat, x: Byte, resched: bool) returns (n: nat)
      requires Valid() && OnCpu(k.View(), c) && (resched ==> !CurrentIdle(k.View(), c))
      modifies this`head, buf, event, k
      ensures Valid() && n == Min(1, buf.Length - 1 - old(Used()))
      ensures Contents() == if n == 1 then old(Contents()) + [x] else old(Contents())
    {
      n := 0;
      var room := SpaceAvail();
      if room > 0 {
        StoreRun([x]);
        n := 1;
        if head != tail {
          var st := event.EventSignal(c, resched);
        }
      }
    }

    /** cbuf_read_char, from taking the lock to giving it back */
    method ReadChar() returns (r: Option<Byte>)
      requires Valid()
      modifies this`tail, event
      ensures Valid()
      ensures if old(Contents()) == [] then r == None && Contents() == []
              else r == Some(old(Contents())[0]) && Contents() == old(Contents())[1..]
    {
      if tail == head {
        return None;
      }
      TakeRun(buf[..], tail, Used(), 1);
      r := Some(buf[tail]);
      tail := Wrap(tail + 1, buf.Length);
      if tail == head {
        var st := event.EventUnsignal();
      }
    }

    /** No reader sleeps on the event while there is something to read. */
    lemma NobodySleeps()
      requires Valid() && Contents() != []
      ensures event.View().w.list == []
    {
    }
  }

  /** Taking a run of the array at the head takes the first elements. */
  lemma TakeRun(a: seq<Byte>, head: nat, used: nat, n: nat)
    requires head < |a| && n <= used <= |a| && head + n <= |a|
    ensures var u := Unroll(a, head, used);
            && a[head..head + n] == u[..n] && Wrap(head + n, |a|) < |a|
            && Unroll(a, Wrap(head + n, |a|), used - n) == u[n..]
  {
    UnrollDrop(a, head, used, n);
    var u, v := Unroll(a, head, used)[..n], a[head..head + n];
    forall i | 0 <= i < n ensures u[i] == v[i] {
      UnrollAt(a, head, used, i);
    }
  }

  lemma DropOn(all: seq<Byte>, out: seq<Byte>, piece: seq<Byte>)
    requires |out| + |piece| <= |all| && out == all[..|out|] && piece == all[|out|..][..|piece|]
    ensures out + piece == all[..|out + piece|] && all[|out|..][|piece|..] == all[|out + piece|..]
  {
  }
}
