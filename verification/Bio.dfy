/** lib/bio/bio.c and lib/bio/subdev.c: byte ranges of any offset and length over a device that moves whole
    blocks, and windows on it nested to any depth. */
module Bio {
  import opened Arith

  const ERR_IO: int := -20
  const ERR_INVALID_ARGS: int := -8
  const UINT: nat := 0x1_0000_0000
  const OFF_MAX: nat := 0x8000_0000_0000_0000

  type Byte = bv8

  /** Overrun is a copy of more bytes than the temporary block holds. */
  datatype Result<T> = Done(value: T) | Error(code: int) | Overrun

  /** The bytes in `n` blocks of `bs` bytes. */
  function Bytes(n: nat, bs: nat): (r: nat)
    ensures n > 0 ==> r >= bs
  {
    if n == 0 then 0 else Bytes(n - 1, bs) + bs
  }

  lemma {:induction false} BytesAdd(a: nat, b: nat, bs: nat)
    ensures Bytes(a + b, bs) == Bytes(a, bs) + Bytes(b, bs)
  {
    if b > 0 {
      BytesAdd(a, b - 1, bs);
    }
  }

  lemma BytesMono(a: nat, b: nat, bs: nat)
    requires a <= b
    ensures Bytes(a, bs) <= Bytes(b, bs)
  {
    BytesAdd(a, b - a, bs);
  }

  /** The block of a byte starts at a multiple of the block size. */
  lemma {:induction false} BytesDiv(x: nat, bs: nat)
    requires bs > 0
    ensures Bytes(Div(x, bs), bs) + Mod(x, bs) == x
  {
    if x >= bs {
      BytesDiv(x - bs, bs);
    }
  }

  lemma BytesInside(x: nat, n: nat, bs: nat)
    requires bs > 0 && x < Bytes(n, bs)
    ensures Div(x, bs) < n
  {
    BytesDiv(x, bs);
    if n <= Div(x, bs) {
      BytesMono(n, Div(x, bs), bs);
    }
  }

  /** `a` with the bytes from `off` on replaced by `b`. */
  function Splice(a: seq<Byte>, off: nat, b: seq<Byte>): (r: seq<Byte>)
    requires off + |b| <= |a|
    ensures |r| == |a|
  {
    a[..off] + b + a[off + |b|..]
  }

  /** What reads back: the new bytes in the range, the old ones everywhere else. */
  lemma SpliceAt(a: seq<Byte>, off: nat, b: seq<Byte>, i: nat)
    requires off + |b| <= |a| && i < |a|
    ensures Splice(a, off, b)[i] == if off <= i < off + |b| then b[i - off] else a[i]
  {
  }

  /** `after` is `before` with `piece` written at `pos`.  The equation is kept behind a trigger, `Sealed`, so that it
      is unfolded only where it is asked for. */
  ghost predicate Wrote(before: seq<Byte>, pos: nat, piece: seq<Byte>, after: seq<Byte>) {
    && pos + |piece| <= |before| == |after|
    && forall k: nat {:trigger Sealed(k)} :: Sealed(k) ==> after == Splice(before, pos, piece)
  }

  ghost predicate Sealed(k: nat) {
    true
  }

  lemma WroteMeans(before: seq<Byte>, pos: nat, piece: seq<Byte>, after: seq<Byte>)
    requires Wrote(before, pos, piece, after)
    ensures after == Splice(before, pos, piece)
  {
    assert Sealed(0);
  }

  lemma WroteNothing(a: seq<Byte>, pos: nat)
    requires pos <= |a|
    ensures Wrote(a, pos, [], a)
  {
    assert Splice(a, pos, []) == a;
  }

  /** Writing the next `k` bytes of a buffer extends the part already written. */
  lemma WroteOn(a: seq<Byte>, pos: nat, buf: seq<Byte>, n: nat, k: nat, b: seq<Byte>, c: seq<Byte>)
    requires n + k <= |buf| && Wrote(a, pos, buf[..n], b) && Wrote(b, pos + n, buf[n..n + k], c)
    ensures Wrote(a, pos, buf[..n + k], c)
  {
    WroteMeans(a, pos, buf[..n], b);
    WroteMeans(b, pos + n, buf[n..n + k], c);
    assert buf[..n] + buf[n..n + k] == buf[..n + k];
    SpliceTwice(a, pos, buf[..n], buf[n..n + k]);
  }

  lemma WroteRest(a: seq<Byte>, pos: nat, buf: seq<Byte>, n: nat, k: nat, b: seq<Byte>, c: seq<Byte>)
    requires n + k <= |buf| && Wrote(a, pos, buf[..n], b) && Wrote(b, pos + n, buf[n..][..k], c)
    ensures Wrote(a, pos, buf[..n + k], c)
  {
    assert buf[n..][..k] == buf[n..n + k];
    WroteOn(a, pos, buf, n, k, b, c);
  }

  lemma Prefix(buf: seq<Byte>, t: nat, n: nat)
    requires n <= t <= |buf|
    ensures buf[..t][..n] == buf[..n]
  {
  }

  lemma SpliceTwice(a: seq<Byte>, off: nat, b: seq<Byte>, c: seq<Byte>)
    requires off + |b| + |c| <= |a|
    ensures Splice(Splice(a, off, b), off + |b|, c) == Splice(a, off, b + c)
  {
  }

  /** Reading a block, changing part of it and writing it back changes just that part. */
  lemma WroteInBlock(a: seq<Byte>, at: nat, bs: nat, o: nat, piece: seq<Byte>, b: seq<Byte>)
    requires at + bs <= |a| && o + |piece| <= bs && Wrote(a, at, Splice(a[at..at + bs], o, piece), b)
    ensures Wrote(a, at + o, piece, b)
  {
    WroteMeans(a, at, Splice(a[at..at + bs], o, piece), b);
    assert Splice(a, at, Splice(a[at..at + bs], o, piece)) == Splice(a, at + o, piece);
  }

  /** bio_trim_range, with the sum taken in 64 bits and compared as signed. */
  function TrimRange(total: nat, offset: int, len: nat): nat {
    if offset < 0 || offset >= total || len == 0 then 0
    else
      var sum := (offset + len) % WORD;
      var signed := if sum < OFF_MAX then sum else sum - WORD;
      if signed > total then total - offset else len
  }

  /** The part of a range that lies on the device. */
  function Trimmed(total: nat, offset: int, len: nat): nat {
    if offset < 0 || offset >= total then 0 else if offset + len > total then total - offset else len
  }

  /** A length, and the range it makes starts off the device or has an end that does not overflow. */
  predicate Trims(total: nat, offset: int, len: nat) {
    len < WORD && (offset < 0 || offset >= total || offset + len < OFF_MAX)
  }

  /** The trim is right if and only if the end of the range does not overflow a signed 64-bit offset. */
  lemma TrimRangeExact(total: nat, offset: int, len: nat)
    requires total < OFF_MAX && len < WORD
    ensures TrimRange(total, offset, len) == Trimmed(total, offset, len) <==>
              Trims(total, offset, len)
  {
    if 0 <= offset < total {
      if offset + len >= WORD {
        assert (offset + len) % WORD == offset + len - WORD;
      }
    }
  }

  /** bio_trim_block_range, with the sum taken in 32 bits. */
  function TrimBlockRange(blocks: nat, block: nat, count: nat): nat {
    if block > blocks || count == 0 then 0
    else if (block + count) % UINT > blocks then blocks - block else count
  }

  function TrimmedBlocks(blocks: nat, block: nat, count: nat): nat {
    if block > blocks then 0 else if block + count > blocks then blocks - block else count
  }

  predicate TrimsBlocks(blocks: nat, block: nat, count: nat) {
    block < UINT && count < UINT && (block > blocks || block + count < UINT)
  }

  /** The block trim is right if and only if the end of the range does not overflow 32 bits. */
  lemma TrimBlockRangeExact(blocks: nat, block: nat, count: nat)
    requires blocks < UINT && block < UINT && count < UINT
    ensures TrimBlockRange(blocks, block, count) == TrimmedBlocks(blocks, block, count) <==>
              TrimsBlocks(blocks, block, count)
  {
    if block + count >= UINT {
      assert (block + count) % UINT == block + count - UINT;
    }
  }

  /** Ranges that the trims let through untrimmed, past the end of a device of 100 bytes or 100 blocks. */
  lemma TrimOverflow()
    ensures TrimRange(100, 50, OFF_MAX) == OFF_MAX && Trimmed(100, 50, OFF_MAX) == 50
    ensures TrimBlockRange(100, 50, UINT - 50) == UINT - 50 && TrimmedBlocks(100, 50, UINT - 50) == 50
  {
  }

  /** Bytes of a range that lie in its first, partial block. */
  function Head(offset: nat, len: nat, bs: nat): (r: nat)
    requires bs > 0
    ensures r <= len
  {
    if Mod(offset, bs) == 0 then 0 else if bs - Mod(offset, bs) < len then bs - Mod(offset, bs) else len
  }

  /** The direct path counts its blocks in 32 bits; the path over the temporary block has no such limit. */
  predicate Fits(offset: nat, len: nat, bs: nat, bounce: bool)
    requires bs > 0
  {
    bounce || len - Head(offset, len, bs) < UINT
  }

  /** A range that starts on a block boundary and is at least `n` blocks long lies on the device. */
  lemma BlocksFit(pos: nat, n: nat, len: nat, total: nat, bs: nat)
    requires bs > 0 && Mod(pos, bs) == 0 && Bytes(n, bs) <= len && pos + len <= Bytes(total, bs)
    ensures Div(pos, bs) + n <= total && Bytes(Div(pos, bs), bs) == pos
    ensures Bytes(Div(pos, bs) + n, bs) == pos + Bytes(n, bs)
    ensures n > 0 && pos + Bytes(n, bs) < Bytes(total, bs) ==> Div(pos, bs) + n < total
  {
    BytesDiv(pos, bs);
    BytesAdd(Div(pos, bs), n, bs);
    if total < Div(pos, bs) + n {
      BytesMono(total + 1, Div(pos, bs) + n, bs);
    }
  }

  /** The device under all the others: `data` is what it stores, `fault(n)` whether the n-th call of its block hooks
      fails, which leaves the device as it was. */
  class Disk {
    const bs: nat
    const blocks: nat
    const alignedReads: bool
    const alignedWrites: bool
    const eraseByte: Byte
    const fault: nat -> Option<int>
    var data: seq<Byte>
    var calls: nat

    ghost predicate Valid()
      reads this
    {
      0 < bs < UINT && blocks < UINT && |data| == Bytes(blocks, bs) < OFF_MAX
    }

    /** One of the hook calls since `from` failed with this code. */
    ghost predicate Faulted(from: nat, code: int)
      reads this
    {
      exists n :: from <= n < calls && fault(n) == Some(code)
    }

    constructor (bs: nat, data: seq<Byte>, blocks: nat, alignedReads: bool, alignedWrites: bool, eraseByte: Byte,
                 fault: nat -> Option<int>)
      requires 0 < bs < UINT && blocks < UINT && |data| == Bytes(blocks, bs) < OFF_MAX
      ensures Valid() && this.data == data && this.bs == bs && this.blocks == blocks
    {
      this.bs, this.blocks, this.data, this.calls := bs, blocks, data, 0;
      this.alignedReads, this.alignedWrites, this.eraseByte, this.fault :=
        alignedReads, alignedWrites, eraseByte, fault;
    }

    /** bio_read_block on this device */
    method ReadBlocks(block: nat, count: nat) returns (r: Result<seq<Byte>>)
      requires Valid() && block < UINT && count < UINT && (block <= blocks ==> block + count < UINT)
      modifies this`calls
      ensures Valid() && calls >= old(calls) && !r.Overrun?
      ensures r.Error? ==> Faulted(old(calls), r.code)
      ensures var n, at := TrimmedBlocks(blocks, block, count), Bytes(block, bs);
              r.Done? ==> && |r.value| == Bytes(n, bs)
                          && (n > 0 ==> at + |r.value| <= |data| && r.value == data[at..at + |r.value|])
    {
      TrimBlockRangeExact(blocks, block, count);
      var n := TrimBlockRange(blocks, block, count);
      if n == 0 {
        return Done([]);
      }
      BytesMono(block + n, blocks, bs);
      BytesAdd(block, n, bs);
      calls := calls + 1;
      if fault(calls - 1).Some? {
        return Error(fault(calls - 1).value);
      }
      return Done(data[Bytes(block, bs)..Bytes(block + n, bs)]);
    }

    /** bio_write_block on this device, of a buffer of whole blocks */
    method WriteBlocks(buf: seq<Byte>, block: nat, count: nat) returns (r: Result<nat>)
      requires Valid() && block < UINT && count < UINT && (block <= blocks ==> block + count < UINT)
      requires |buf| == Bytes(count, bs)
      modifies this`calls, this`data
      ensures Valid() && calls >= old(calls) && !r.Overrun?
      ensures r.Error? ==> Faulted(old(calls), r.code) && data == old(data)
      ensures var n := TrimmedBlocks(blocks, block, count);
              r.Done? ==> r.value == Bytes(n, bs) <= |buf| && (n > 0 ==> Bytes(block, bs) + r.value <= |data|)
      ensures r.Done? ==>
                if r.value == 0 then data == old(data) else Wrote(old(data), Bytes(block, bs), buf[..r.value], data)
    {
      TrimBlockRangeExact(blocks, block, count);
      var n := TrimBlockRange(blocks, block, count);
      if n == 0 {
        return Done(0);
      }
      BytesMono(block + n, blocks, bs);
      BytesAdd(block, n, bs);
      BytesMono(n, count, bs);
      calls := calls + 1;
      if fault(calls - 1).Some? {
        return Error(fault(calls - 1).value);
      }
      data := Splice(data, Bytes(block, bs), buf[..Bytes(n, bs)]);
      return Done(Bytes(n, bs));
    }

    /** Read one whole block into the temporary buffer. */
    method ReadTemp(block: nat) returns (r: Result<seq<Byte>>)
      requires Valid() && block < blocks
      modifies this`calls
      ensures Valid() && calls >= old(calls) && !r.Overrun? && (r.Error? ==> Faulted(old(calls), r.code))
      ensures Bytes(block, bs) + bs <= |data| && (r.Done? ==> r.value == data[Bytes(block, bs)..Bytes(block, bs) + bs])
    {
      BytesMono(block + 1, blocks, bs);
      r := ReadBlocks(block, 1);
      if r.Done? && |r.value| != bs {
        r := Error(ERR_IO);
      }
    }

    /** Write the temporary buffer to one whole block. */
    method WriteTemp(temp: seq<Byte>, block: nat) returns (r: Result<nat>)
      requires Valid() && block < blocks && |temp| == bs
      modifies this`calls, this`data
      ensures Valid() && calls >= old(calls) && !r.Overrun?
      ensures (r.Error? ==> Faulted(old(calls), r.code) && data == old(data))
      ensures Bytes(block, bs) + bs <= |data| && (r.Done? ==> Wrote(old(data), Bytes(block, bs), temp, data))
    {
      BytesMono(block + 1, blocks, bs);
      assert Bytes(1, bs) == bs && temp[..bs] == temp;
      r := WriteBlocks(temp, block, 1);
      if r.Done? && r.value != bs {
        r := Error(ERR_IO);
      }
    }

    /** The middle of bio_default_read, from a block boundary on, one block at a time through the temporary buffer. */
    method ReadBounce(pos: nat, len: nat) returns (r: Result<seq<Byte>>)
      requires Valid() && Mod(pos, bs) == 0 && pos + len <= |data|
      modifies this`calls
      ensures Valid() && calls >= old(calls) && !r.Overrun? && (r.Error? ==> Faulted(old(calls), r.code))
      ensures r.Done? ==> |r.value| <= len && r.value == data[pos..pos + |r.value|] && Mod(pos + |r.value|, bs) == 0
      ensures r.Done? ==> len - |r.value| < bs
    {
      var block := Div(pos, bs);
      var buf: seq<Byte> := [];
      ghost var at := pos;
      while len - |buf| >= bs
        invariant |buf| <= len && at == pos + |buf| && buf == data[pos..at] && Mod(at, bs) == 0
        invariant Valid() && calls >= old(calls) && block == Div(at, bs)
        decreases len - |buf|
      {
        BlockAt(at, blocks, bs);
        var temp := ReadTemp(block);
        if temp.Error? {
          return temp;
        }
        buf := buf + temp.value;
        block := block + 1;
        at := at + bs;
      }
      return Done(buf);
    }

    /** The same, with as many blocks as a 32-bit count can say, all at once. */
    method ReadDirect(pos: nat, len: nat) returns (r: Result<seq<Byte>>)
      requires Valid() && Mod(pos, bs) == 0 && pos + len <= |data|
      modifies this`calls
      ensures Valid() && calls >= old(calls) && !r.Overrun? && (r.Error? ==> Faulted(old(calls), r.code))
      ensures r.Done? ==> |r.value| <= len && r.value == data[pos..pos + |r.value|] && Mod(pos + |r.value|, bs) == 0
      ensures r.Done? ==> if len < UINT then len - |r.value| < bs else len - |r.value| > bs
    {
      var block := Div(pos, bs);
      var n := Div(len % UINT, bs);
      MiddleCount(len, n, bs);
      BlocksFit(pos, n, len, blocks, bs);
      ModAdd(pos, Bytes(n, bs), bs);
      r := ReadBlocks(block, n);
      if r.Done? && |r.value| != Bytes(n, bs) {
        r := Error(ERR_IO);
      }
    }

    /** bio_default_read of a range on the device.  `aligned` says whether the caller's buffer is cache-aligned after
        the first partial block. */
    method DefaultRead(offset: nat, len: nat, aligned: bool) returns (r: Result<seq<Byte>>)
      requires Valid() && 0 < len && offset + len <= |data|
      modifies this`calls
      ensures Valid() && calls >= old(calls)
      ensures var fits := Fits(offset, len, bs, alignedReads && !aligned);
              match r
              case Done(v) => fits && v == data[offset..offset + len]
              case Overrun => !fits
              case Error(code) => Faulted(old(calls), code)
    {
      var h := Head(offset, len, bs);
      var buf: seq<Byte> := [];
      if Mod(offset, bs) != 0 {
        r := ReadHead(offset, len);
        if r.Error? {
          return;
        }
        buf := r.value;
      }
      if h == len {
        return Done(buf);
      }
      r := ReadRest(offset + h, len - h, alignedReads && !aligned);
      if r.Done? {
        Joined(data, offset, buf, r.value);
        r := Done(buf + r.value);
      }
    }

    /** The partial first block of a read. */
    method ReadHead(offset: nat, len: nat) returns (r: Result<seq<Byte>>)
      requires Valid() && Mod(offset, bs) != 0 && offset + len <= |data| && 0 < len
      modifies this`calls
      ensures Valid() && calls >= old(calls) && !r.Overrun? && (r.Error? ==> Faulted(old(calls), r.code))
      ensures var h := Head(offset, len, bs);
              && (r.Done? ==> |r.value| == h && r.value == data[offset..offset + h])
              && (h < len ==> Mod(offset + h, bs) == 0)
    {
      var o := Mod(offset, bs);
      BlockOf(offset, blocks, bs);
      var n := if bs - o < len then bs - o else len;
      ChunkStep(offset, n, bs);
      var temp := ReadTemp(Div(offset, bs));
      if temp.Error? {
        return temp;
      }
      Sliced(data, offset - o, temp.value, o, n);
      return Done(temp.value[o..o + n]);
    }

    /** bio_default_read after the first partial block: whole blocks, then what is left of the last one. */
    method ReadRest(pos: nat, len: nat, bounce: bool) returns (r: Result<seq<Byte>>)
      requires Valid() && Mod(pos, bs) == 0 && 0 < len && pos + len <= |data|
      modifies this`calls
      ensures Valid() && calls >= old(calls)
      ensures match r
              case Done(v) => (bounce || len < UINT) && v == data[pos..pos + len]
              case Overrun => !bounce && len >= UINT
              case Error(code) => Faulted(old(calls), code)
    {
      if bounce {
        r := ReadBounce(pos, len);
      } else {
        r := ReadDirect(pos, len);
      }
      if r.Error? || |r.value| == len {
        return;
      }
      r := ReadTail(r.value, pos, len);
    }

    /** What is left of the last block, after the bytes in `buf`. */
    method ReadTail(buf: seq<Byte>, pos: nat, len: nat) returns (r: Result<seq<Byte>>)
      requires Valid() && |buf| < len && pos + len <= |data| && Mod(pos + |buf|, bs) == 0
      requires buf == data[pos..pos + |buf|]
      modifies this`calls
      ensures Valid() && calls >= old(calls)
      ensures match r
              case Done(v) => len - |buf| <= bs && v == data[pos..pos + len]
              case Overrun => len - |buf| > bs
              case Error(code) => Faulted(old(calls), code)
    {
      var left, at := len - |buf|, pos + |buf|;
      BlockOf(at, blocks, bs);
      var temp := ReadTemp(Div(at, bs));
      if temp.Error? {
        return temp;
      }
      if left > bs {
        return Overrun;
      }
      JoinedTail(data, pos, buf, at, temp.value, left);
      return Done(buf + temp.value[..left]);
    }

    /** Read a block, replace part of it and write it back: the way both partial blocks of a write go. */
    method PatchBlock(at: nat, o: nat, piece: seq<Byte>) returns (r: Result<nat>)
      requires Valid() && Mod(at, bs) == 0 && at < |data| && o + |piece| <= bs
      modifies this`calls, this`data
      ensures Valid() && calls >= old(calls) && !r.Overrun? && at + bs <= |data|
      ensures r.Error? ==> Faulted(old(calls), r.code) && data == old(data)
      ensures r.Done? ==> Wrote(old(data), at + o, piece, data)
    {
      BlockOf(at, blocks, bs);
      var temp := ReadTemp(Div(at, bs));
      if temp.Error? {
        return Error(temp.code);
      }
      r := WriteTemp(Splice(temp.value, o, piece), Div(at, bs));
      if r.Done? {
        WroteInBlock(old(data), at, bs, o, piece, data);
      }
    }

    /** The middle of bio_default_write, one block at a time through the temporary buffer.  `n` bytes get written. */
    method WriteBounce(buf: seq<Byte>, pos: nat) returns (r: Result<nat>, n: nat)
      requires Valid() && Mod(pos, bs) == 0 && pos + |buf| <= |data|
      modifies this`calls, this`data
      ensures Valid() && calls >= old(calls) && !r.Overrun? && (r.Error? ==> Faulted(old(calls), r.code))
      ensures n <= |buf| && Wrote(old(data), pos, buf[..n], data)
      ensures r.Done? ==> Mod(pos + n, bs) == 0 && |buf| - n < bs
    {
      var block := Div(pos, bs);
      n := 0;
      ghost var at := pos;
      WroteNothing(data, pos);
      while |buf| - n >= bs
        invariant n <= |buf| && at == pos + n && Mod(at, bs) == 0 && |data| == |old(data)|
        invariant Valid() && calls >= old(calls) && block == Div(at, bs) && Wrote(old(data), pos, buf[..n], data)
        decreases |buf| - n
      {
        BlockAt(at, blocks, bs);
        ghost var before := data;
        var w := WriteTemp(buf[n..n + bs], block);
        if w.Error? {
          return w, n;
        }
        WroteOn(old(data), pos, buf, n, bs, before, data);
        n := n + bs;
        block := block + 1;
        at := at + bs;
      }
      return Done(n), n;
    }

    /** The same, with as many blocks as a 32-bit count can say, all at once. */
    method WriteDirect(buf: seq<Byte>, pos: nat) returns (r: Result<nat>, n: nat)
      requires Valid() && Mod(pos, bs) == 0 && pos + |buf| <= |data|
      modifies this`calls, this`data
      ensures Valid() && calls >= old(calls) && !r.Overrun? && (r.Error? ==> Faulted(old(calls), r.code))
      ensures n <= |buf| && Wrote(old(data), pos, buf[..n], data)
      ensures r.Done? ==> Mod(pos + n, bs) == 0 && if |buf| < UINT then |buf| - n < bs else |buf| - n > bs
    {
      var block := Div(pos, bs);
      var count := Div(|buf| % UINT, bs);
      n := Bytes(count, bs);
      MiddleCount(|buf|, count, bs);
      BlocksFit(pos, count, |buf|, blocks, bs);
      ModAdd(pos, n, bs);
      WroteNothing(data, pos);
      r := WriteBlocks(buf[..n], block, count);
      assert r.Done? ==> r.value == n && buf[..n][..n] == buf[..n];
      if r.Error? {
        n := 0;
      }
    }

    /** bio_default_write after the first partial block: whole blocks, then what is left of the last one. */
    method WriteRest(buf: seq<Byte>, pos: nat, bounce: bool) returns (r: Result<nat>, ghost n: nat)
      requires Valid() && Mod(pos, bs) == 0 && 0 < |buf| && pos + |buf| <= |data|
      modifies this`calls, this`data
      ensures Valid() && calls >= old(calls) && n <= |buf| && Wrote(old(data), pos, buf[..n], data)
      ensures match r
              case Done(v) => (bounce || |buf| < UINT) && v == n == |buf|
              case Overrun => !bounce && |buf| >= UINT
              case Error(code) => Faulted(old(calls), code)
    {
      var m: nat;
      if bounce {
        r, m := WriteBounce(buf, pos);
      } else {
        r, m := WriteDirect(buf, pos);
      }
      n := m;
      if r.Error? || m == |buf| {
        return if r.Error? then r else Done(m), m;
      }
      r, n := WriteTail(buf, pos, m, old(data));
    }

    /** What is left of the last block, after the first `m` bytes. */
    method WriteTail(buf: seq<Byte>, pos: nat, m: nat, ghost was: seq<Byte>) returns (r: Result<nat>, ghost n: nat)
      requires Valid() && m < |buf| && pos + |buf| <= |data| && Mod(pos + m, bs) == 0 && Wrote(was, pos, buf[..m], data)
      modifies this`calls, this`data
      ensures Valid() && calls >= old(calls) && m <= n <= |buf| && Wrote(was, pos, buf[..n], data)
      ensures match r
              case Done(v) => |buf| - m <= bs && v == n == |buf|
              case Overrun => |buf| - m > bs
              case Error(code) => Faulted(old(calls), code)
    {
      var at, left := pos + m, |buf| - m;
      n := m;
      if left > bs {
        BlockOf(at, blocks, bs);
        var temp := ReadTemp(Div(at, bs));
        return if temp.Error? then Error(temp.code) else Overrun, m;
      }
      var w := PatchBlock(at, 0, buf[m..m + left]);
      if w.Error? {
        return w, m;
      }
      WroteOn(was, pos, buf, m, left, old(data), data);
      return Done(|buf|), |buf|;
    }

    /** The partial first block of a write. */
    method WriteHead(buf: seq<Byte>, offset: nat) returns (r: Result<nat>)
      requires Valid() && Mod(offset, bs) != 0 && 0 < |buf| && offset + |buf| <= |data|
      modifies this`calls, this`data
      ensures Valid() && calls >= old(calls) && !r.Overrun?
      ensures r.Error? ==> Faulted(old(calls), r.code) && data == old(data)
      ensures var h := Head(offset, |buf|, bs);
              && (r.Done? ==> Wrote(old(data), offset, buf[..h], data)) && (h < |buf| ==> Mod(offset + h, bs) == 0)
    {
      var h, o := Head(offset, |buf|, bs), Mod(offset, bs);
      BlockStart(offset, h, bs);
      r := PatchBlock(offset - o, o, buf[..h]);
    }

    /** bio_default_write of a range on the device.  The writes go in order, so that after an error the range holds
        the first `n` new bytes and is otherwise as before. */
    method DefaultWrite(buf: seq<Byte>, offset: nat, aligned: bool) returns (r: Result<nat>, ghost n: nat)
      requires Valid() && 0 < |buf| && offset + |buf| <= |data|
      modifies this`calls, this`data
      ensures Valid() && calls >= old(calls) && n <= |buf| && Wrote(old(data), offset, buf[..n], data)
      ensures var fits := Fits(offset, |buf|, bs, alignedWrites && !aligned);
              match r
              case Done(v) => fits && v == n == |buf|
              case Overrun => !fits
              case Error(code) => Faulted(old(calls), code)
    {
      var h := Head(offset, |buf|, bs);
      WroteNothing(data, offset);
      if Mod(offset, bs) != 0 {
        r := WriteHead(buf, offset);
        if r.Error? {
          return r, 0;
        }
      }
      if h == |buf| {
        return Done(h), h;
      }
      ghost var before, k := data, 0;
      r, k := WriteRest(buf[h..], offset + h, alignedWrites && !aligned);
      WroteRest(old(data), offset, buf, h, k, before, data);
      n := h + k;
      if r.Done? {
        r := Done(h + r.value);
      }
    }

    /** bio_read through `dev`: the part of the range that lies in its window, whatever the nesting. */
    method Read(dev: Dev, offset: int, len: nat, aligned: bool) returns (r: Result<seq<Byte>>)
      requires Valid() && Nested(dev, blocks) && Trims(Bytes(Blocks(dev, blocks), bs), offset, len)
      modifies this`calls
      ensures Valid() && calls >= old(calls)
      ensures var t, at := Trimmed(Bytes(Blocks(dev, blocks), bs), offset, len), Bytes(First(dev), bs) + offset;
              if t == 0 then r == Done([])
              else && 0 <= at && at + t <= |data|
                   && var fits := Fits(at, t, bs, alignedReads && !aligned);
                   match r
                   case Done(v) => fits && v == data[at..at + t]
                   case Overrun => !fits
                   case Error(code) => Faulted(old(calls), code)
      decreases dev
    {
      WindowInside(dev, blocks, bs);
      TrimRangeExact(Bytes(Blocks(dev, blocks), bs), offset, len);
      var n := TrimRange(Bytes(Blocks(dev, blocks), bs), offset, len);
      if n == 0 {
        return Done([]);
      }
      match dev {
        case Base => r := DefaultRead(offset, n, aligned);
        case Sub(parent, start, count) =>
          WindowStep(dev, blocks, bs);
          r := Read(parent, offset + Bytes(start, bs), n, aligned);
      }
    }

    /** bio_write through `dev`: only bytes of the range that lie in its window change.  `n` of them do. */
    method Write(dev: Dev, buf: seq<Byte>, offset: int, aligned: bool) returns (r: Result<nat>, ghost n: nat)
      requires Valid() && Nested(dev, blocks) && Trims(Bytes(Blocks(dev, blocks), bs), offset, |buf|)
      modifies this`calls, this`data
      ensures Valid() && calls >= old(calls)
      ensures var t, at := Trimmed(Bytes(Blocks(dev, blocks), bs), offset, |buf|), Bytes(First(dev), bs) + offset;
              if t == 0 then n == 0 && r == Done(0) && data == old(data)
              else && 0 <= at && n <= t && Wrote(old(data), at, buf[..n], data)
                   && var fits := Fits(at, t, bs, alignedWrites && !aligned);
                   match r
                   case Done(v) => fits && v == n == t
                   case Overrun => !fits
                   case Error(code) => Faulted(old(calls), code)
      decreases dev, 1
    {
      WindowInside(dev, blocks, bs);
      TrimRangeExact(Bytes(Blocks(dev, blocks), bs), offset, |buf|);
      var t := TrimRange(Bytes(Blocks(dev, blocks), bs), offset, |buf|);
      if t == 0 {
        return Done(0), 0;
      }
      r, n := WriteInside(dev, buf[..t], offset, aligned, Bytes(First(dev), bs) + offset);
      Prefix(buf, t, n);
    }

    /** bio_write after the trim: `at` is where the range starts on the disk. */
    method WriteInside(dev: Dev, buf: seq<Byte>, offset: nat, aligned: bool, ghost at: nat)
      returns (r: Result<nat>, ghost n: nat)
      requires Valid() && Nested(dev, blocks) && 0 < |buf| < WORD && at == Bytes(First(dev), bs) + offset
      requires offset + |buf| <= Bytes(Blocks(dev, blocks), bs) && at + |buf| <= |data|
      modifies this`calls, this`data
      ensures Valid() && calls >= old(calls) && n <= |buf| && Wrote(old(data), at, buf[..n], data)
      ensures var fits := Fits(at, |buf|, bs, alignedWrites && !aligned);
              match r
              case Done(v) => fits && v == n == |buf|
              case Overrun => !fits
              case Error(code) => Faulted(old(calls), code)
      decreases dev, 0
    {
      match dev {
        case Base => r, n := DefaultWrite(buf, offset, aligned);
        case Sub(parent, start, count) =>
          SubRange(dev, blocks, bs, offset, |buf|);
          r, n := Write(parent, buf, offset + Bytes(start, bs), aligned);
      }
    }

    /** bio_default_erase, a block's worth of erase bytes at a time. */
    method DefaultErase(offset: nat, len: nat, aligned: bool) returns (r: Result<nat>, ghost n: nat)
      requires Valid() && 0 < len && offset + len <= |data|
      modifies this`calls, this`data
      ensures Valid() && calls >= old(calls) && n <= len && Wrote(old(data), offset, Repeat(eraseByte, len)[..n], data)
      ensures match r
              case Done(v) => v == n == len
              case Overrun => false
              case Error(code) => Faulted(old(calls), code)
    {
      var all := Repeat(eraseByte, len);
      var erased := 0;
      n := 0;
      WroteNothing(data, offset);
      while erased < len
        invariant n == erased <= len && Valid() && calls >= old(calls) && |data| == |old(data)|
        invariant Wrote(old(data), offset, all[..n], data)
        decreases len - erased
      {
        var towrite := if len - erased < bs then len - erased else bs;
        ghost var k;
        r, k := ErasePart(offset, erased, towrite, all, aligned, old(data));
        n := n + k;
        if !r.Done? {
          return;
        }
        erased := erased + r.value;
        if r.value < towrite {
          break;
        }
      }
      return Done(erased), n;
    }

    /** Write `towrite` erase bytes, no more than a block, after the first `n`. */
    method ErasePart(offset: nat, n: nat, towrite: nat, ghost all: seq<Byte>, aligned: bool, ghost was: seq<Byte>)
      returns (r: Result<nat>, ghost k: nat)
      requires Valid() && 0 < towrite <= bs && n + towrite <= |all| && all == Repeat(eraseByte, |all|)
      requires offset + |all| <= |data| == |was| && Wrote(was, offset, all[..n], data)
      modifies this`calls, this`data
      ensures Valid() && calls >= old(calls) && |data| == |was| && k <= towrite
      ensures Wrote(was, offset, all[..n + k], data)
      ensures match r
              case Done(v) => v == k == towrite
              case Overrun => false
              case Error(code) => Faulted(old(calls), code)
    {
      r, k := Write(Base, Repeat(eraseByte, towrite), offset + n, aligned);
      RepeatSlice(eraseByte, towrite, |all|, n, k);
      WroteOn(was, offset, all, n, k, old(data), data);
    }

    /** bio_erase through `dev` */
    method Erase(dev: Dev, offset: int, len: nat, aligned: bool) returns (r: Result<nat>, ghost n: nat)
      requires Valid() && Nested(dev, blocks) && Trims(Bytes(Blocks(dev, blocks), bs), offset, len)
      modifies this`calls, this`data
      ensures Valid() && calls >= old(calls)
      ensures var t, at := Trimmed(Bytes(Blocks(dev, blocks), bs), offset, len), Bytes(First(dev), bs) + offset;
              if t == 0 then n == 0 && r == Done(0) && data == old(data)
              else && 0 <= at && n <= t && Wrote(old(data), at, Repeat(eraseByte, t)[..n], data)
                   && match r
                      case Done(v) => v == n == t
                      case Overrun => false
                      case Error(code) => Faulted(old(calls), code)
      decreases dev
    {
      WindowInside(dev, blocks, bs);
      TrimRangeExact(Bytes(Blocks(dev, blocks), bs), offset, len);
      var t := TrimRange(Bytes(Blocks(dev, blocks), bs), offset, len);
      if t == 0 {
        return Done(0), 0;
      }
      match dev {
        case Base => r, n := DefaultErase(offset, t, aligned);
        case Sub(parent, start, count) =>
          WindowStep(dev, blocks, bs);
          r, n := Erase(parent, offset + Bytes(start, bs), t, aligned);
      }
    }

    /** bio_read_block through `dev` */
    method ReadBlock(dev: Dev, block: nat, count: nat) returns (r: Result<seq<Byte>>)
      requires Valid() && Nested(dev, blocks) && TrimsBlocks(Blocks(dev, blocks), block, count)
      modifies this`calls
      ensures Valid() && calls >= old(calls) && !r.Overrun? && (r.Error? ==> Faulted(old(calls), r.code))
      ensures var n, at := TrimmedBlocks(Blocks(dev, blocks), block, count), Bytes(First(dev) + block, bs);
              r.Done? ==> && |r.value| == Bytes(n, bs)
                          && (n > 0 ==> at + |r.value| <= |data| && r.value == data[at..at + |r.value|])
      decreases dev
    {
      match dev
      case Base => r := ReadBlocks(block, count);
      case Sub(parent, start, total) =>
        NestedSmall(dev, blocks);
        NestedSmall(parent, blocks);
        TrimBlockRangeExact(total, block, count);
        var n := TrimBlockRange(total, block, count);
        if n == 0 {
          return Done([]);
        }
        r := ReadBlock(parent, block + start, n);
    }

    /** bio_write_block through `dev` */
    method WriteBlock(dev: Dev, buf: seq<Byte>, block: nat, count: nat) returns (r: Result<nat>)
      requires Valid() && Nested(dev, blocks) && TrimsBlocks(Blocks(dev, blocks), block, count)
      requires |buf| == Bytes(count, bs)
      modifies this`calls, this`data
      ensures Valid() && calls >= old(calls) && !r.Overrun?
      ensures r.Error? ==> Faulted(old(calls), r.code) && data == old(data)
      ensures r.Done? ==> r.value == Bytes(TrimmedBlocks(Blocks(dev, blocks), block, count), bs) <= |buf|
      ensures r.Done? ==> if r.value == 0 then data == old(data)
                          else Wrote(old(data), Bytes(First(dev) + block, bs), buf[..r.value], data)
      decreases dev
    {
      match dev
      case Base => r := WriteBlocks(buf, block, count);
      case Sub(parent, start, total) =>
        NestedSmall(dev, blocks);
        NestedSmall(parent, blocks);
        TrimBlockRangeExact(total, block, count);
        var n := TrimBlockRange(total, block, count);
        if n == 0 {
          return Done(0);
        }
        BytesMono(n, count, bs);
        r := WriteBlock(parent, buf[..Bytes(n, bs)], block + start, n);
        if r.Done? {
          Prefix(buf, Bytes(n, bs), r.value);
        }
    }
  }

  /** A read of 2^32 bytes from the start, not through the bounce buffer: the count of blocks comes out as 0, and all
      of it is left for the one temporary block at the end. */
  method OverrunExample(disk: Disk) returns (r: Result<seq<Byte>>)
    requires disk.Valid() && |disk.data| >= UINT && forall n: nat :: disk.fault(n) == None
    modifies disk`calls
    ensures r == Overrun && Div(UINT % UINT, disk.bs) == 0
  {
    assert !Fits(0, UINT, disk.bs, false);
    r := disk.DefaultRead(0, UINT, true);
  }

  /** A device: the disk itself, or a subdevice of another, `start` blocks into it and `count` blocks long. */
  datatype Dev = Base | Sub(parent: Dev, start: nat, count: nat)

  function Blocks(dev: Dev, blocks: nat): nat {
    match dev
    case Base => blocks
    case Sub(_, _, count) => count
  }

  /** The block of the disk at which a device starts. */
  function First(dev: Dev): nat {
    match dev
    case Base => 0
    case Sub(parent, start, _) => First(parent) + start
  }

  predicate Nested(dev: Dev, blocks: nat) {
    match dev
    case Base => true
    case Sub(parent, start, count) => Nested(parent, blocks) && start + count <= Blocks(parent, blocks)
  }

  lemma NestedSmall(dev: Dev, blocks: nat)
    requires Nested(dev, blocks)
    ensures First(dev) + Blocks(dev, blocks) <= blocks
  {
  }

  /** However deep the nesting, a window lies on the disk. */
  lemma WindowInside(dev: Dev, blocks: nat, bs: nat)
    requires Nested(dev, blocks)
    ensures Bytes(First(dev), bs) + Bytes(Blocks(dev, blocks), bs) <= Bytes(blocks, bs)
  {
    NestedSmall(dev, blocks);
    BytesAdd(First(dev), Blocks(dev, blocks), bs);
    BytesMono(First(dev) + Blocks(dev, blocks), blocks, bs);
  }

  /** A subdevice's window lies in its parent's. */
  lemma WindowStep(dev: Dev, blocks: nat, bs: nat)
    requires Nested(dev, blocks) && dev.Sub?
    ensures Bytes(First(dev), bs) == Bytes(First(dev.parent), bs) + Bytes(dev.start, bs)
    ensures Bytes(dev.start, bs) + Bytes(dev.count, bs) <= Bytes(Blocks(dev.parent, blocks), bs) <= Bytes(blocks, bs)
  {
    BytesAdd(First(dev.parent), dev.start, bs);
    BytesAdd(dev.start, dev.count, bs);
    BytesMono(dev.start + dev.count, Blocks(dev.parent, blocks), bs);
    NestedSmall(dev.parent, blocks);
    BytesMono(Blocks(dev.parent, blocks), blocks, bs);
  }

  /** A range in a subdevice's window is the range in its parent's to which it is passed on, with nothing to trim. */
  lemma SubRange(dev: Dev, blocks: nat, bs: nat, offset: nat, t: nat)
    requires Nested(dev, blocks) && dev.Sub? && 0 < t && Bytes(blocks, bs) < OFF_MAX
    requires offset + t <= Bytes(Blocks(dev, blocks), bs)
    ensures var size, at := Bytes(Blocks(dev.parent, blocks), bs), offset + Bytes(dev.start, bs);
            && Trimmed(size, at, t) == t && Trims(size, at, t) && at + t <= size
            && Bytes(First(dev.parent), bs) + at == Bytes(First(dev), bs) + offset
  {
    WindowStep(dev, blocks, bs);
  }

  function Repeat(b: Byte, n: nat): (r: seq<Byte>)
    ensures |r| == n
  {
    seq(n, i => b)
  }

  lemma RepeatSlice(b: Byte, m: nat, len: nat, n: nat, k: nat)
    requires k <= m && n + k <= len
    ensures Repeat(b, m)[..k] == Repeat(b, len)[n..n + k]
  {
  }

  /** bio_publish_subdevice for a parent without erase geometry: the window is accepted if and only if it lies in the
      parent, the check for 32-bit wrap-around included. */
  method PublishSubdevice(parent: Dev, blocks: nat, startblock: nat, count: nat) returns (r: Result<Dev>)
    requires Nested(parent, blocks) && blocks < UINT && startblock < UINT && count < UINT
    ensures r == if startblock + count <= Blocks(parent, blocks) then Done(Sub(parent, startblock, count))
                 else Error(ERR_INVALID_ARGS)
    ensures r.Done? ==> Nested(r.value, blocks)
  {
    NestedSmall(parent, blocks);
    var end := (startblock + count) % UINT;
    if end < startblock || end > Blocks(parent, blocks) {
      return Error(ERR_INVALID_ARGS);
    }
    return Done(Sub(parent, startblock, count));
  }

  /** What a write through one window leaves alone: every byte outside it, so all of any disjoint window. */
  lemma OutsideWindow(dev: Dev, blocks: nat, bs: nat, offset: nat, piece: seq<Byte>, before: seq<Byte>,
                      after: seq<Byte>, i: nat)
    requires Nested(dev, blocks) && offset + |piece| <= Bytes(Blocks(dev, blocks), bs)
    requires |before| == Bytes(blocks, bs) && i < |before|
    requires Wrote(before, Bytes(First(dev), bs) + offset, piece, after)
    requires i < Bytes(First(dev), bs) || Bytes(First(dev) + Blocks(dev, blocks), bs) <= i
    ensures after[i] == before[i]
  {
    WroteMeans(before, Bytes(First(dev), bs) + offset, piece, after);
    BytesAdd(First(dev), Blocks(dev, blocks), bs);
    SpliceAt(before, Bytes(First(dev), bs) + offset, piece, i);
  }

  /** What was written reads back. */
  lemma ReadsBack(before: seq<Byte>, pos: nat, piece: seq<Byte>, after: seq<Byte>)
    requires Wrote(before, pos, piece, after)
    ensures after[pos..pos + |piece|] == piece
  {
    WroteMeans(before, pos, piece, after);
  }

  /** The head of a range starts in a block and ends at its end, or the range does. */
  lemma BlockStart(offset: nat, h: nat, bs: nat)
    requires bs > 0 && Mod(offset, bs) != 0 && h <= bs - Mod(offset, bs)
    ensures Mod(offset - Mod(offset, bs), bs) == 0
    ensures h == bs - Mod(offset, bs) ==> Mod(offset + h, bs) == 0
  {
    ChunkStep(offset, h, bs);
    BytesDiv(offset, bs);
    BytesMod(Div(offset, bs), bs);
  }

  lemma JoinedTail(d: seq<Byte>, from: nat, a: seq<Byte>, at: nat, temp: seq<Byte>, left: nat)
    requires at == from + |a| && at + |temp| <= |d| && left <= |temp| && a == d[from..at] && temp == d[at..at + |temp|]
    ensures a + temp[..left] == d[from..at + left]
  {
    assert temp[..left] == d[at..at + left];
  }

  lemma Sliced(d: seq<Byte>, at: nat, temp: seq<Byte>, o: nat, n: nat)
    requires at + |temp| <= |d| && o + n <= |temp| && temp == d[at..at + |temp|]
    ensures temp[o..o + n] == d[at + o..at + o + n]
  {
    var x, y := temp[o..o + n], d[at + o..at + o + n];
    forall i | 0 <= i < n ensures x[i] == y[i] {
      assert temp[o + i] == d[at + o + i];
    }
  }

  lemma Joined(d: seq<Byte>, from: nat, a: seq<Byte>, b: seq<Byte>)
    requires from + |a| + |b| <= |d| && a == d[from..from + |a|] && b == d[from + |a|..from + |a| + |b|]
    ensures a + b == d[from..from + |a| + |b|]
  {
  }

  /** The block of a byte of the device, and where it starts. */
  lemma BlockOf(x: nat, blocks: nat, bs: nat)
    requires bs > 0 && x < Bytes(blocks, bs)
    ensures Div(x, bs) < blocks && Bytes(Div(x, bs), bs) == x - Mod(x, bs)
  {
    BytesDiv(x, bs);
    BytesInside(x, blocks, bs);
  }

  /** A whole block at a block boundary. */
  lemma BlockAt(at: nat, blocks: nat, bs: nat)
    requires bs > 0 && Mod(at, bs) == 0 && at + bs <= Bytes(blocks, bs)
    ensures Div(at, bs) < blocks && Bytes(Div(at, bs), bs) == at
    ensures Mod(at + bs, bs) == 0 && Div(at + bs, bs) == Div(at, bs) + 1
  {
    BlockOf(at, blocks, bs);
  }

  /** The count of the direct path covers the whole blocks of a range shorter than 2^32, and leaves more than a block
      of a longer one. */
  lemma MiddleCount(len: nat, n: nat, bs: nat)
    requires 0 < bs < UINT && n == Div(len % UINT, bs)
    ensures n < UINT && Bytes(n, bs) <= len && Mod(Bytes(n, bs), bs) == 0
    ensures if len < UINT then len - Bytes(n, bs) < bs else len - Bytes(n, bs) > bs
  {
    var x := len % UINT;
    BytesDiv(x, bs);
    DivAtMost(x, bs);
    BytesMod(n, bs);
  }

  lemma {:induction false} BytesMod(n: nat, bs: nat)
    requires bs > 0
    ensures Mod(Bytes(n, bs), bs) == 0
  {
    if n > 0 {
      BytesMod(n - 1, bs);
    }
  }

  lemma {:induction false} DivAtMost(x: nat, n: nat)
    requires n > 0
    ensures Div(x, n) <= x
  {
    if x >= n {
      DivAtMost(x - n, n);
    }
  }
}
