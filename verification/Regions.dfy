/** The region list of an address space (kernel/vm/vmm.c): insertion at a given address, the
    first-fit search for a gap, and lookup.  Addresses wrap at 64 bits. */
module Regions {
  import opened Arith
  import opened Pmm

  /** An address computation in 64 bits. */
  function Wrap(x: int): nat {
    if 0 <= x < WORD then x else x % WORD
  }

  /** A region and the physical pages on its page list. */
  datatype Region = Region(base: nat, size: nat, pages: seq<nat>)
  {
    function End(): nat {
      base + size
    }

    predicate Has(a: nat) {
      base <= a < base + size
    }

    predicate Apart(a: nat, n: nat) {
      a + n <= base || base + size <= a
    }
  }

  /** An address space of `asize` bytes at `lo` that does not wrap. */
  ghost predicate Space(lo: nat, asize: nat) {
    0 < asize < WORD && lo + asize <= WORD
  }

  /** Regions inside the space, in address order, no two sharing an address. */
  ghost predicate Listed(rs: seq<Region>, lo: nat, asize: nat) {
    && (forall i :: 0 <= i < |rs| ==> rs[i].size > 0 && lo <= rs[i].base && rs[i].End() <= lo + asize)
    && (forall i, j :: 0 <= i < j < |rs| ==> rs[i].End() <= rs[j].base)
  }

  function Insert(rs: seq<Region>, k: nat, r: Region): seq<Region>
    requires k <= |rs|
  {
    rs[..k] + [r] + rs[k..]
  }

  function Delete(rs: seq<Region>, k: nat): seq<Region>
    requires k < |rs|
  {
    rs[..k] + rs[k + 1..]
  }

  lemma InsertListed(rs: seq<Region>, lo: nat, asize: nat, k: nat, r: Region)
    requires Listed(rs, lo, asize) && k <= |rs|
    requires r.size > 0 && lo <= r.base && r.End() <= lo + asize
    requires k > 0 ==> rs[k - 1].End() <= r.base
    requires k < |rs| ==> r.End() <= rs[k].base
    ensures Listed(Insert(rs, k, r), lo, asize)
  {
    var b := Insert(rs, k, r);
    forall i | 0 <= i < |b| ensures b[i] == if i < k then rs[i] else if i == k then r else rs[i - 1] {
    }
    forall i, j | 0 <= i < j < |b| ensures b[i].End() <= b[j].base {
      InsertOrder(rs, lo, asize, k, r, i, j);
    }
  }

  lemma InsertOrder(rs: seq<Region>, lo: nat, asize: nat, k: nat, r: Region, i: nat, j: nat)
    requires Listed(rs, lo, asize) && k <= |rs| && i < j <= |rs|
    requires k > 0 ==> rs[k - 1].End() <= r.base
    requires k < |rs| ==> r.End() <= rs[k].base
    ensures Insert(rs, k, r)[i].End() <= Insert(rs, k, r)[j].base
  {
    if i < k == j && i < k - 1 {
      assert rs[i].End() <= rs[k - 1].base;
    } else if i == k && k < j - 1 {
      assert rs[k].End() <= rs[j - 1].base;
    }
  }

  lemma DeleteInsert(rs: seq<Region>, k: nat, r: Region)
    requires k <= |rs|
    ensures Delete(Insert(rs, k, r), k) == rs && Insert(rs, k, r)[k] == r
  {
  }

  lemma DeleteListed(rs: seq<Region>, lo: nat, asize: nat, k: nat)
    requires Listed(rs, lo, asize) && k < |rs|
    ensures Listed(Delete(rs, k), lo, asize)
  {
  }

  /** is_region_inside_aspace */
  predicate InsideSpace(lo: nat, asize: nat, vaddr: nat, size: nat) {
    && lo <= vaddr <= Wrap(lo + asize - 1)
    && (size == 0 || (Wrap(vaddr + size - 1) >= vaddr && Wrap(vaddr + size - 1) <= Wrap(lo + asize - 1)))
  }

  lemma InsideSpaceMeans(lo: nat, asize: nat, vaddr: nat, size: nat)
    requires Space(lo, asize) && vaddr < WORD && 0 < size < WORD
    ensures InsideSpace(lo, asize, vaddr, size) <==> lo <= vaddr && vaddr + size <= lo + asize
  {
  }

  /** The request shares no address with a listed region. */
  ghost predicate Clear(rs: seq<Region>, a: nat, n: nat) {
    forall i :: 0 <= i < |rs| ==> rs[i].Apart(a, n)
  }

  /** The request does not fit between region `i` and the one after it. */
  ghost predicate TooTight(rs: seq<Region>, i: nat, vaddr: nat, size: nat)
    requires i < |rs|
  {
    rs[i].End() <= vaddr ==> i + 1 < |rs| && rs[i + 1].base < vaddr + size
  }

  /** The walk of add_region_to_aspace: where the request goes in the list, if anywhere. */
  method PlaceRegion(rs: seq<Region>, lo: nat, asize: nat, vaddr: nat, size: nat) returns (k: Option<nat>)
    requires Space(lo, asize) && Listed(rs, lo, asize) && vaddr < WORD && size < WORD
    ensures k.Some? <==> size > 0 && lo <= vaddr && vaddr + size <= lo + asize && Clear(rs, vaddr, size)
    ensures k.Some? ==> && k.value <= |rs| && (k.value > 0 ==> rs[k.value - 1].End() <= vaddr)
                        && (k.value < |rs| ==> vaddr + size <= rs[k.value].base)
  {
    if size == 0 || !InsideSpace(lo, asize, vaddr, size) {
      return None;
    }
    InsideSpaceMeans(lo, asize, vaddr, size);
    var end := Wrap(vaddr + size - 1);
    if rs == [] || end < rs[0].base {
      return Some(0);
    }
    var n := 0;
    while n < |rs|
      invariant 0 <= n <= |rs|
      invariant forall i :: 0 <= i < n ==> TooTight(rs, i, vaddr, size)
    {
      if vaddr > Wrap(rs[n].base + rs[n].size - 1) {
        if n + 1 == |rs| || end < rs[n + 1].base {
          return Some(n + 1);
        }
      }
      n := n + 1;
    }
    NoPlace(rs, lo, asize, vaddr, size, 0);
    return None;
  }

  /** If no neighbouring pair of regions has room for the request, it overlaps one. */
  lemma {:induction false} NoPlace(rs: seq<Region>, lo: nat, asize: nat, vaddr: nat, size: nat, k: nat)
    requires Listed(rs, lo, asize) && rs != [] && size > 0 && k < |rs|
    requires rs[k].base < vaddr + size
    requires forall i :: 0 <= i < |rs| ==> TooTight(rs, i, vaddr, size)
    ensures !Clear(rs, vaddr, size)
    decreases |rs| - k
  {
    assert TooTight(rs, k, vaddr, size);
    if rs[k].End() <= vaddr {
      NoPlace(rs, lo, asize, vaddr, size, k + 1);
    } else {
      assert !rs[k].Apart(vaddr, size);
    }
  }

  datatype Pick = Found(spot: nat) | GiveUp | Next

  /** check_gap, with arch_mmu_pick_spot rounding up to `align`. */
  function CheckGap(lo: nat, asize: nat, prev: Option<Region>, next: Option<Region>, align: nat, size: nat): Pick
    requires align > 0
  {
    var beg := if prev.Some? then Wrap(prev.value.base + prev.value.size) else lo;
    if next.Some? && beg == next.value.base then Next
    else if next.None? && beg == Wrap(lo + asize) then GiveUp
    else
      var end := if next.Some? then Wrap(next.value.base - 1) else Wrap(lo + asize - 1);
      var spot := Wrap(RoundUp(beg, align));
      if spot < beg then GiveUp
      else if spot < end && end - spot + 1 >= size then Found(spot)
      else Next
  }

  /** Gap `k` lies before region `k`; these are its first address and the address after its last. */
  ghost function GapLo(rs: seq<Region>, lo: nat, k: nat): nat
    requires k <= |rs|
  {
    if k == 0 then lo else rs[k - 1].End()
  }

  ghost function GapHi(rs: seq<Region>, lo: nat, asize: nat, k: nat): nat
    requires k <= |rs|
  {
    if k < |rs| then rs[k].base else lo + asize
  }

  /** A place where `size` bytes could go. */
  ghost predicate Room(rs: seq<Region>, lo: nat, asize: nat, align: nat, size: nat, a: nat)
    requires align > 0
  {
    Mod(a, align) == 0 && lo <= a && a + size <= lo + asize && Clear(rs, a, size)
  }

  ghost predicate RoomFrom(rs: seq<Region>, lo: nat, asize: nat, align: nat, size: nat, from: nat)
    requires align > 0
  {
    forall a: nat :: Room(rs, lo, asize, align, size, a) ==> a >= from
  }

  ghost predicate NoRoom(rs: seq<Region>, lo: nat, asize: nat, align: nat, size: nat)
    requires align > 0
  {
    forall a: nat :: !Room(rs, lo, asize, align, size, a)
  }

  /** What one gap check tells about every place there is. */
  lemma GapStep(rs: seq<Region>, lo: nat, asize: nat, align: nat, size: nat, k: nat)
    requires Space(lo, asize) && Listed(rs, lo, asize) && k <= |rs| && size > 1 && align > 0 && Mod(WORD, align) == 0
    requires RoomFrom(rs, lo, asize, align, size, GapLo(rs, lo, k))
    ensures match CheckGap(lo, asize, if k == 0 then None else Some(rs[k - 1]),
                           if k < |rs| then Some(rs[k]) else None, align, size)
            case Found(spot) => && GapLo(rs, lo, k) <= spot && spot + size <= GapHi(rs, lo, asize, k)
                                && Mod(spot, align) == 0 && RoomFrom(rs, lo, asize, align, size, spot)
            case GiveUp => NoRoom(rs, lo, asize, align, size)
            case Next => if k == |rs| then NoRoom(rs, lo, asize, align, size)
                         else RoomFrom(rs, lo, asize, align, size, GapLo(rs, lo, k + 1))
  {
    var beg, hi := GapLo(rs, lo, k), GapHi(rs, lo, asize, k);
    GapExact(rs, lo, asize, align, size, k);
    forall a: nat | Room(rs, lo, asize, align, size, a)
      ensures a >= RoundUp(beg, align) && (a + size <= hi || (k < |rs| && rs[k].End() <= a))
    {
      RoundUpLeast(beg, align, a);
      if k < |rs| {
        assert rs[k].Apart(a, size);
      }
    }
  }

  /** check_gap with the wrap-around worked out. */
  lemma GapExact(rs: seq<Region>, lo: nat, asize: nat, align: nat, size: nat, k: nat)
    requires Space(lo, asize) && Listed(rs, lo, asize) && k <= |rs| && size > 1 && align > 0 && Mod(WORD, align) == 0
    ensures var beg, hi := GapLo(rs, lo, k), GapHi(rs, lo, asize, k);
            var up := RoundUp(beg, align);
            CheckGap(lo, asize, if k == 0 then None else Some(rs[k - 1]),
                     if k < |rs| then Some(rs[k]) else None, align, size)
            == if beg == hi then if k < |rs| then Next else GiveUp
               else if up >= WORD then GiveUp
               else if up + size <= hi then Found(up) else Next
  {
    var beg, hi := GapLo(rs, lo, k), GapHi(rs, lo, asize, k);
    assert beg <= hi && (beg < hi ==> Wrap(beg) == beg && Wrap(hi - 1) == hi - 1);
    assert Wrap(WORD) == 0;
    if beg < hi {
      RoundUpLeast(beg, align, WORD);
      assert beg == 0 ==> RoundUp(beg, align) == 0;
    }
  }

  /** A spot inside a gap is clear of every region. */
  lemma GapClear(rs: seq<Region>, lo: nat, asize: nat, k: nat, a: nat, size: nat)
    requires Listed(rs, lo, asize) && k <= |rs|
    requires GapLo(rs, lo, k) <= a && a + size <= GapHi(rs, lo, asize, k)
    ensures Clear(rs, a, size) && lo <= a && a + size <= lo + asize
  {
    forall i | 0 <= i < |rs| ensures rs[i].Apart(a, size) {
      if i < k {
        assert rs[i].End() <= rs[k - 1].End();
      } else {
        assert rs[k].base <= rs[i].base;
      }
    }
  }

  /** alloc_spot: the lowest aligned place with room, and the gap it is in; none only if there is none. */
  method AllocSpot(rs: seq<Region>, lo: nat, asize: nat, size: nat, alignPow2: nat) returns (r: Option<(nat, nat)>)
    requires Space(lo, asize) && Listed(rs, lo, asize) && size > 1 && alignPow2 < 64
    ensures var align := Pow2(if alignPow2 < PAGE_SIZE_SHIFT then PAGE_SIZE_SHIFT else alignPow2);
            if r.None? then NoRoom(rs, lo, asize, align, size)
            else && Room(rs, lo, asize, align, size, r.value.0)
                 && RoomFrom(rs, lo, asize, align, size, r.value.0)
    ensures r.Some? ==> && r.value.1 <= |rs| && (r.value.1 > 0 ==> rs[r.value.1 - 1].End() <= r.value.0)
                        && (r.value.1 < |rs| ==> r.value.0 + size <= rs[r.value.1].base)
  {
    var log2 := if alignPow2 < PAGE_SIZE_SHIFT then PAGE_SIZE_SHIFT else alignPow2;
    var align := Pow2(log2);
    WordMultiple(log2);
    var k := 0;
    while k <= |rs|
      invariant 0 <= k <= |rs| + 1
      invariant k <= |rs| ==> RoomFrom(rs, lo, asize, align, size, GapLo(rs, lo, k))
      invariant k == |rs| + 1 ==> NoRoom(rs, lo, asize, align, size)
      decreases |rs| + 1 - k
    {
      GapStep(rs, lo, asize, align, size, k);
      var p := CheckGap(lo, asize, if k == 0 then None else Some(rs[k - 1]),
                        if k < |rs| then Some(rs[k]) else None, align, size);
      match p
      case Found(spot) =>
        GapClear(rs, lo, asize, k, spot, size);
        return Some((spot, k));
      case GiveUp =>
        return None;
      case Next =>
        k := k + 1;
    }
    return None;
  }

  lemma WordMultiple(n: nat)
    requires n < 64
    ensures Mod(WORD, Pow2(n)) == 0
  {
    Pow2Add(n, 64 - n);
    WordPow2();
    ModSelf(Pow2(n));
    ModMul(Pow2(64 - n), Pow2(n), Pow2(n));
  }

  lemma ModSelf(n: nat)
    requires n > 0
    ensures Mod(n, n) == 0
  {
  }

  lemma WordPow2()
    ensures Pow2(64) == WORD
  {
    assert Pow2(8) == 0x100;
    Pow2Add(8, 8);
    Pow2Add(16, 16);
    Pow2Add(32, 32);
  }

  /** vmm_find_region */
  method FindRegion(rs: seq<Region>, lo: nat, asize: nat, vaddr: nat) returns (k: Option<nat>)
    requires Space(lo, asize) && Listed(rs, lo, asize)
    ensures k.None? ==> forall i :: 0 <= i < |rs| ==> !rs[i].Has(vaddr)
    ensures k.Some? ==> k.value < |rs| && rs[k.value].Has(vaddr)
                        && forall i :: 0 <= i < |rs| && rs[i].Has(vaddr) ==> i == k.value
  {
    for n := 0 to |rs|
      invariant forall i :: 0 <= i < n ==> !rs[i].Has(vaddr)
    {
      if rs[n].base <= vaddr <= Wrap(rs[n].base + rs[n].size - 1) {
        return Some(n);
      }
    }
    return None;
  }
}
