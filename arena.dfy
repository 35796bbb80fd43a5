/** The bump-allocation arena of the WFP binding (malloc.go).

    Structures handed to the filtering engine are assembled in unmanaged memory.
    An arena hands out aligned regions from fixed-size slabs obtained from the
    process heap and releases every slab at once in Dispose. Addresses are
    natural numbers; memory contents are not modelled. */
module Arena {

  /** Bytes in one slab. Every slab the arena adds has exactly this size. */
  const SlabSize: nat := 4096

  /** Every address the arena returns is a multiple of this. */
  const ByteBoundary: nat := 8

  /** Bytes that `align` skips to move the cursor `n` up to the next boundary. */
  function Pad(n: nat): (p: nat)
    ensures p < ByteBoundary
    ensures (n + p) % ByteBoundary == 0
    ensures p == 0 <==> n % ByteBoundary == 0
  {
    if n % ByteBoundary == 0 then 0 else ByteBoundary - n % ByteBoundary
  }

  /** When the end of the current slab (`n + m`) is on a boundary, padding the
      cursor `n` never consumes more than the `m` bytes that are left, and what
      is left afterwards is still a whole number of boundary units. */
  lemma PadFits(n: nat, m: nat)
    requires (n + m) % ByteBoundary == 0
    ensures Pad(n) <= m
    ensures (m - Pad(n)) % ByteBoundary == 0
  {
    if n % ByteBoundary != 0 {
      assert m % ByteBoundary == ByteBoundary - n % ByteBoundary;
    }
  }

  /** A region `[start, start + length)` of the address space. */
  datatype Region = Region(start: nat, length: nat)
  {
    function End(): nat { start + length }
  }

  predicate Disjoint(a: Region, b: Region)
  {
    a.End() <= b.start || b.End() <= a.start
  }

  /** `r` lies inside the slab based at `base`. */
  predicate Inside(r: Region, base: nat)
  {
    base <= r.start && r.End() <= base + SlabSize
  }

  /** Regions inside two different live slabs do not overlap. */
  lemma SeparateSlabs(heap: LocalHeap, a: nat, b: nat, r: Region, s: Region)
    requires heap.Valid()
    requires a in heap.blocks && heap.blocks[a] == SlabSize
    requires b in heap.blocks && heap.blocks[b] == SlabSize
    requires a != b && Inside(r, a) && Inside(s, b)
    ensures Disjoint(r, s)
  {
  }

  /** The process heap behind LocalAlloc and LocalFree, as an oracle: it knows
      which blocks are live and may hand out any aligned block that overlaps no
      live one. `freed` records every LocalFree in order. */
  class LocalHeap {
    var blocks: map<nat, nat>
    var top: nat
    var freed: seq<nat>

    /** Live blocks start above address 0 (NULL), are non-empty, lie below
        `top` and never overlap. */
    ghost predicate Valid()
      reads this
    {
      (forall b :: b in blocks ==> 0 < b && 0 < blocks[b] && b + blocks[b] <= top) &&
      (forall b, c :: b in blocks && c in blocks && b != c ==>
        b + blocks[b] <= c || c + blocks[c] <= b)
    }

    constructor ()
      ensures Valid() && blocks == map[] && freed == []
    {
      blocks, top, freed := map[], 0, [];
    }

    /** LocalAlloc: a fresh block of `size` bytes whose base is 8-aligned and
        not NULL (a failed LocalAlloc panics in the caller). */
    method LocalAlloc(size: nat) returns (base: nat)
      requires Valid()
      requires 0 < size
      modifies this
      ensures Valid() && freed == old(freed)
      ensures 0 < base && base % ByteBoundary == 0
      ensures base !in old(blocks) && blocks == old(blocks)[base := size]
      ensures forall b :: b in old(blocks) ==> b + old(blocks)[b] <= base || base + size <= b
    {
      ghost var w := top + Pad(top) + ByteBoundary;
      assert 0 < w && w % ByteBoundary == 0 && forall b :: b in blocks ==> b + blocks[b] <= w;
      base :| 0 < base && base % ByteBoundary == 0 &&
        forall b :: b in blocks ==> b + blocks[b] <= base || base + size <= b;
      blocks := blocks[base := size];
      if top < base + size {
        top := base + size;
      }
    }

    /** LocalFree of a live block. */
    method LocalFree(base: nat)
      requires Valid()
      requires base in blocks
      modifies this
      ensures Valid()
      ensures blocks == old(blocks) - {base}
      ensures freed == old(freed) + [base]
    {
      blocks := blocks - {base};
      freed := freed + [base];
    }
  }

  /** The arena: the slabs obtained so far, the cursor `next` and the bytes
      `remaining` in the current (last) slab. The ghost fields record every
      region returned since the arena was created or last disposed, and the
      index of the slab each one was carved from. */
  class Arena {
    var slabs: seq<nat>
    var next: nat
    var remaining: nat
    ghost var regions: seq<Region>
    ghost var owners: seq<nat>

    /** The cursor invariant: slab bases are aligned; an arena without slabs
        has a zero cursor; otherwise `next + remaining` is the end of the last
        slab. Hence the end of the current slab is always on a boundary. */
    ghost predicate CursorValid()
      reads this
    {
      (forall i :: 0 <= i < |slabs| ==> slabs[i] % ByteBoundary == 0) &&
      (slabs == [] ==> next == 0 && remaining == 0) &&
      (slabs != [] ==>
        slabs[|slabs| - 1] <= next && next + remaining == slabs[|slabs| - 1] + SlabSize)
    }

    /** Every slab is a distinct live heap block of SlabSize bytes. */
    ghost predicate SlabsLive(heap: LocalHeap)
      reads this`slabs, heap
    {
      heap.Valid() &&
      (forall i :: 0 <= i < |slabs| ==> slabs[i] in heap.blocks && heap.blocks[slabs[i]] == SlabSize) &&
      (forall i, j :: 0 <= i < j < |slabs| ==> slabs[i] != slabs[j])
    }

    /** Every returned region lies inside the slab it was carved from, those
        carved from the current slab end at or before `cursor`, and no two
        regions overlap. */
    ghost predicate CarvedBelow(cursor: nat)
      reads this`slabs, this`regions, this`owners
    {
      |owners| == |regions| &&
      (forall k :: 0 <= k < |regions| ==> owners[k] < |slabs| && Inside(regions[k], slabs[owners[k]])) &&
      (forall k :: 0 <= k < |regions| && owners[k] == |slabs| - 1 ==> regions[k].End() <= cursor) &&
      (forall k, l :: 0 <= k < l < |regions| ==> Disjoint(regions[k], regions[l]))
    }

    ghost predicate RegionsValid()
      reads this`slabs, this`next, this`regions, this`owners
    {
      CarvedBelow(next)
    }

    /** The full invariant of an arena whose slabs come from `heap`. */
    ghost predicate Valid(heap: LocalHeap)
      reads this, heap
    {
      CursorValid() && SlabsLive(heap) && RegionsValid()
    }

    /** The zero value of the arena. */
    constructor ()
      ensures slabs == [] && next == 0 && remaining == 0
      ensures regions == [] && owners == []
    {
      slabs, next, remaining := [], 0, 0;
      regions, owners := [], [];
    }

    /** grow: append one fresh slab and carve from it from now on. */
    method Grow(heap: LocalHeap)
      requires Valid(heap)
      modifies this`slabs, this`next, this`remaining, heap
      ensures Valid(heap)
      ensures slabs == old(slabs) + [next] && remaining == SlabSize
      ensures next % ByteBoundary == 0
      ensures next !in old(heap.blocks) && heap.blocks == old(heap.blocks)[next := SlabSize]
      ensures forall b :: b in old(heap.blocks) ==>
        b + old(heap.blocks)[b] <= next || next + SlabSize <= b
      ensures heap.freed == old(heap.freed)
    {
      var slab := heap.LocalAlloc(SlabSize);
      slabs := slabs + [slab];
      next := slab;
      remaining := SlabSize;
    }

    /** align: move the cursor up to the next boundary, taking the skipped
        bytes from `remaining`, which cannot underflow. */
    method Align()
      requires CursorValid()
      modifies this`next, this`remaining
      ensures CursorValid()
      ensures next % ByteBoundary == 0
      ensures next == old(next) + Pad(old(next))
      ensures next + remaining == old(next) + old(remaining)
      ensures old(RegionsValid()) ==> RegionsValid()
    {
      var offset := next % ByteBoundary;
      if offset != 0 {
        PadFits(next, remaining);
        var skip := ByteBoundary - offset;
        next := next + skip;
        remaining := remaining - skip;
      }
    }

    /** Alloc: an aligned region of `length` bytes inside the current slab,
        growing by one slab exactly when the aligned cursor leaves too little
        room. A length of zero or above SlabSize is a fatal error in the
        source, so callers must not make such a request. */
    method Alloc(length: nat, heap: LocalHeap) returns (ret: nat)
      requires Valid(heap)
      requires 0 < length <= SlabSize
      modifies this, heap
      ensures Valid(heap)
      ensures 0 < ret && ret % ByteBoundary == 0
      ensures slabs != [] && Inside(Region(ret, length), slabs[|slabs| - 1])
      ensures next == ret + length
      ensures regions == old(regions) + [Region(ret, length)]
      ensures forall k :: 0 <= k < |old(regions)| ==> Disjoint(old(regions)[k], Region(ret, length))
      ensures old(remaining) < old(Pad(next)) + length ==>
        slabs == old(slabs) + [ret] && remaining == SlabSize - length &&
        ret !in old(heap.blocks) && heap.blocks == old(heap.blocks)[ret := SlabSize]
      ensures old(Pad(next)) + length <= old(remaining) ==>
        slabs == old(slabs) && heap.blocks == old(heap.blocks) &&
        ret == old(next) + old(Pad(next)) && remaining == old(remaining) - old(Pad(next)) - length
      ensures heap.freed == old(heap.freed)
    {
      Reserve(length, heap);
      ret := Carve(length, heap);
    }

    /** The first half of Alloc: align the cursor, then grow when the rest of
        the current slab is shorter than `length`. Afterwards the cursor is
        aligned with at least `length` bytes behind it in the current slab. */
    method Reserve(length: nat, heap: LocalHeap)
      requires Valid(heap)
      requires 0 < length <= SlabSize
      modifies this`slabs, this`next, this`remaining, heap
      ensures Valid(heap)
      ensures next % ByteBoundary == 0 && length <= remaining && slabs != []
      ensures old(remaining) < old(Pad(next)) + length ==>
        slabs == old(slabs) + [next] && remaining == SlabSize &&
        next !in old(heap.blocks) && heap.blocks == old(heap.blocks)[next := SlabSize]
      ensures old(Pad(next)) + length <= old(remaining) ==>
        slabs == old(slabs) && heap.blocks == old(heap.blocks) &&
        next == old(next) + old(Pad(next)) && remaining == old(remaining) - old(Pad(next))
      ensures heap.freed == old(heap.freed)
    {
      Align();
      if length > remaining {
        Grow(heap);
      }
    }

    /** The second half of Alloc: hand out the `length` bytes at the aligned
        cursor and move the cursor past them. */
    method Carve(length: nat, heap: LocalHeap) returns (ret: nat)
      requires Valid(heap)
      requires next % ByteBoundary == 0 && length <= remaining && slabs != []
      modifies this`next, this`remaining, this`regions, this`owners
      ensures Valid(heap)
      ensures ret == old(next) && next == ret + length && remaining == old(remaining) - length
      ensures Inside(Region(ret, length), slabs[|slabs| - 1])
      ensures regions == old(regions) + [Region(ret, length)]
      ensures forall k :: 0 <= k < |old(regions)| ==> Disjoint(old(regions)[k], Region(ret, length))
    {
      ret := next;
      Record(heap, Region(ret, length));
      next := next + length;
      remaining := remaining - length;
    }

    /** Ghost bookkeeping of Alloc: note the region carved at the cursor. */
    ghost method Record(heap: LocalHeap, carved: Region)
      requires SlabsLive(heap) && CarvedBelow(carved.start) && slabs != []
      requires Inside(carved, slabs[|slabs| - 1])
      modifies this`regions, this`owners
      ensures CarvedBelow(carved.End())
      ensures regions == old(regions) + [carved]
      ensures forall k :: 0 <= k < |old(regions)| ==> Disjoint(old(regions)[k], carved)
    {
      CarveDisjoint(heap, carved);
      regions := regions + [carved];
      owners := owners + [|slabs| - 1];
    }

    /** A region carved at or after the cursor of the current slab overlaps
        no region returned before. */
    lemma CarveDisjoint(heap: LocalHeap, carved: Region)
      requires SlabsLive(heap) && CarvedBelow(carved.start) && slabs != []
      requires Inside(carved, slabs[|slabs| - 1])
      ensures forall k :: 0 <= k < |regions| ==> Disjoint(regions[k], carved)
    {
      var cur := |slabs| - 1;
      forall k | 0 <= k < |regions|
        ensures Disjoint(regions[k], carved)
      {
        var o := owners[k];
        if o != cur {
          assert o < cur && slabs[o] != slabs[cur];
          assert slabs[o] in heap.blocks && heap.blocks[slabs[o]] == SlabSize;
          assert slabs[cur] in heap.blocks && heap.blocks[slabs[cur]] == SlabSize;
          SeparateSlabs(heap, slabs[o], slabs[cur], regions[k], carved);
        }
      }
    }

    /** Dispose: free every slab once, in order, and return to the zero state,
        from which Alloc may be used again. */
    method Dispose(heap: LocalHeap)
      requires Valid(heap)
      modifies this, heap
      ensures Valid(heap)
      ensures slabs == [] && next == 0 && remaining == 0
      ensures regions == [] && owners == []
      ensures heap.freed == old(heap.freed) + old(slabs)
      ensures heap.blocks == old(heap.blocks) - (set s | s in old(slabs))
    {
      var i := 0;
      while i < |slabs|
        invariant 0 <= i <= |slabs|
        invariant heap.Valid()
        invariant heap.freed == old(heap.freed) + slabs[..i]
        invariant heap.blocks == old(heap.blocks) - (set s | s in slabs[..i])
        modifies heap
      {
        assert slabs[i] !in slabs[..i];
        heap.LocalFree(slabs[i]);
        assert slabs[..i + 1] == slabs[..i] + [slabs[i]];
        i := i + 1;
      }
      assert slabs[..i] == slabs;
      slabs, next, remaining := [], 0, 0;
      regions, owners := [], [];
    }
  }
}
