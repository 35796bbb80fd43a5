/** Clients of the arena that run a sequence of allocations on a fresh arena
    and dispose it, as the arena's tests do (malloc_test.go), together with a
    pure account of where the cursor stands after each request. */
module ArenaScenarios {
  import opened Arena

  /** Where the cursor stands: how many slabs the arena has taken, and how
      many bytes of the last one are behind the cursor. */
  datatype Cursor = Cursor(slabCount: nat, used: nat)

  const Start := Cursor(0, 0)

  /** Bytes left in the current slab. A fresh arena has none. */
  function Remaining(c: Cursor): nat
  {
    if c.slabCount == 0 || SlabSize < c.used then 0 else SlabSize - c.used
  }

  /** One Alloc request of `length` bytes: pad the cursor to a boundary, and
      open a new slab when the rest of the current one is too short. */
  function Step(c: Cursor, length: nat): (d: Cursor)
    ensures d.slabCount == c.slabCount || d.slabCount == c.slabCount + 1
    ensures d.slabCount == c.slabCount + 1 <==> Remaining(c) < Pad(c.used) + length
  {
    if Remaining(c) < Pad(c.used) + length then Cursor(c.slabCount + 1, length)
    else Cursor(c.slabCount, c.used + Pad(c.used) + length)
  }

  /** The cursor after the requests `sizes`, in order, starting from `c`. */
  function Replay(c: Cursor, sizes: seq<nat>): Cursor
    decreases |sizes|
  {
    if sizes == [] then c else Replay(Step(c, sizes[0]), sizes[1..])
  }

  /** Each request opens at most one slab, and slabs are never given back
      before Dispose. */
  lemma {:induction false} ReplayBounds(c: Cursor, sizes: seq<nat>)
    ensures c.slabCount <= Replay(c, sizes).slabCount <= c.slabCount + |sizes|
    decreases |sizes|
  {
    if sizes != [] {
      ReplayBounds(Step(c, sizes[0]), sizes[1..]);
    }
  }

  /** A request of a whole slab always opens a slab of its own, since the
      current slab, if any, already holds a byte or the cursor is at its end. */
  lemma {:induction false} WholeSlabRequests(c: Cursor, n: nat)
    requires c.slabCount == 0 || 0 < c.used
    ensures Replay(c, seq(n, _ => SlabSize)).slabCount == c.slabCount + n
    decreases n
  {
    if n > 0 {
      var sizes := seq(n, _ => SlabSize);
      assert sizes[1..] == seq(n - 1, _ => SlabSize);
      WholeSlabRequests(Step(c, SlabSize), n - 1);
    }
  }

  /** Every request is one Alloc accepts. */
  predicate Acceptable(sizes: seq<nat>)
  {
    forall i :: 0 <= i < |sizes| ==> 0 < sizes[i] <= SlabSize
  }

  /** Padding depends only on the offset from an aligned base. */
  lemma PadFromBase(base: nat, used: nat)
    requires base % ByteBoundary == 0
    ensures Pad(base + used) == Pad(used)
  {
    assert (base + used) % ByteBoundary == used % ByteBoundary;
  }

  /** The arena `a` stands where the cursor `c` says. */
  ghost predicate Tracks(a: Arena, c: Cursor)
    reads a
  {
    c.slabCount == |a.slabs| &&
    (a.slabs == [] ==> c.used == 0) &&
    (a.slabs != [] ==>
      a.slabs[|a.slabs| - 1] % ByteBoundary == 0 && c.used <= SlabSize &&
      a.next == a.slabs[|a.slabs| - 1] + c.used && a.remaining == SlabSize - c.used)
  }

  /** One Alloc on an arena that `c` tracks, over a heap that other clients
      may share: the cursor moves as Step says, and the heap gains the new
      slab exactly when Step opens one. */
  method Request(a: Arena, heap: LocalHeap, ghost c: Cursor, length: nat) returns (p: nat, ghost d: Cursor)
    requires a.Valid(heap) && Tracks(a, c) && 0 < length <= SlabSize
    modifies a, heap
    ensures a.Valid(heap) && Tracks(a, d) && d == Step(c, length)
    ensures d.slabCount == c.slabCount + 1 ==>
      a.slabs == old(a.slabs) + [p] && p !in old(heap.blocks) && heap.blocks == old(heap.blocks)[p := SlabSize]
    ensures d.slabCount == c.slabCount ==> a.slabs == old(a.slabs) && heap.blocks == old(heap.blocks)
    ensures heap.freed == old(heap.freed)
    ensures 0 < p && p % ByteBoundary == 0
    ensures a.regions == old(a.regions) + [Region(p, length)]
    ensures forall k :: 0 <= k < |old(a.regions)| ==> Disjoint(old(a.regions)[k], Region(p, length))
  {
    if a.slabs != [] {
      PadFromBase(a.slabs[|a.slabs| - 1], c.used);
    }
    assert a.remaining == Remaining(c) && Pad(a.next) == Pad(c.used);
    ghost var oldSlabs := a.slabs;
    ghost var oldBlocks := heap.blocks;
    p := a.Alloc(length, heap);
    d := Step(c, length);
  }

  /** When the live blocks are exactly the slabs, they stay so as one block
      is added and recorded as a slab. */
  lemma GainSlab(blocks: map<nat, nat>, slabs: seq<nat>, p: nat)
    requires forall b :: b in blocks <==> b in slabs
    ensures forall b :: b in blocks[p := SlabSize] <==> b in slabs + [p]
  {
  }

  /** Request on an arena whose slabs are the only live blocks of its heap:
      they stay so. */
  method SoleTenantRequest(a: Arena, heap: LocalHeap, ghost c: Cursor, length: nat) returns (p: nat, ghost d: Cursor)
    requires a.Valid(heap) && Tracks(a, c) && 0 < length <= SlabSize
    requires forall b :: b in heap.blocks <==> b in a.slabs
    modifies a, heap
    ensures a.Valid(heap) && Tracks(a, d) && d == Step(c, length)
    ensures forall b :: b in heap.blocks <==> b in a.slabs
    ensures heap.freed == old(heap.freed)
    ensures 0 < p && p % ByteBoundary == 0
    ensures a.regions == old(a.regions) + [Region(p, length)]
  {
    ghost var oldSlabs, oldBlocks := a.slabs, heap.blocks;
    p, d := Request(a, heap, c, length);
    if d.slabCount == c.slabCount + 1 {
      GainSlab(oldBlocks, oldSlabs, p);
    }
  }

  /** Run the requests `sizes` in order on the arena `a`, which starts empty
      and whose slabs are the only live blocks of its heap. */
  method RunRequests(a: Arena, heap: LocalHeap, sizes: seq<nat>) returns (addrs: seq<nat>)
    requires Acceptable(sizes)
    requires a.Valid(heap) && Tracks(a, Start) && a.regions == []
    requires heap.freed == [] && forall b :: b in heap.blocks <==> b in a.slabs
    modifies a, heap
    ensures a.Valid(heap) && |a.slabs| == Replay(Start, sizes).slabCount
    ensures heap.freed == [] && forall b :: b in heap.blocks <==> b in a.slabs
    ensures |addrs| == |sizes| && |a.regions| == |sizes|
    ensures forall k :: 0 <= k < |sizes| ==> a.regions[k] == Region(addrs[k], sizes[k])
    ensures forall k :: 0 <= k < |sizes| ==> 0 < addrs[k] && addrs[k] % ByteBoundary == 0
  {
    ghost var c := Start;
    addrs := [];
    for i := 0 to |sizes|
      invariant a.Valid(heap) && Tracks(a, c)
      invariant Replay(c, sizes[i..]) == Replay(Start, sizes)
      invariant heap.freed == []
      invariant forall b :: b in heap.blocks <==> b in a.slabs
      invariant |addrs| == i && |a.regions| == i
      invariant forall k :: 0 <= k < i ==> a.regions[k] == Region(addrs[k], sizes[k])
      invariant forall k :: 0 <= k < i ==> 0 < addrs[k] && addrs[k] % ByteBoundary == 0
    {
      var p;
      p, c := SoleTenantRequest(a, heap, c, sizes[i]);
      assert sizes[i..][1..] == sizes[i + 1..];
      addrs := addrs + [p];
    }
    assert sizes[|sizes|..] == [];
  }

  /** Run the requests `sizes` on a fresh arena over a fresh heap, then
      dispose it. Every address is aligned, no two regions overlap, the arena
      takes exactly as many slabs as Replay says, and Dispose frees each of
      them once and leaves no heap block behind. */
  method AllocSequence(sizes: seq<nat>) returns (addrs: seq<nat>, slabCount: nat, freed: seq<nat>, live: map<nat, nat>)
    requires Acceptable(sizes)
    ensures |addrs| == |sizes|
    ensures forall i :: 0 <= i < |addrs| ==> 0 < addrs[i] && addrs[i] % ByteBoundary == 0
    ensures forall i, j :: 0 <= i < j < |addrs| ==> Disjoint(Region(addrs[i], sizes[i]), Region(addrs[j], sizes[j]))
    ensures slabCount == Replay(Start, sizes).slabCount
    ensures |freed| == slabCount && live == map[]
  {
    var heap := new LocalHeap();
    var a := new Arena();
    addrs := RunRequests(a, heap, sizes);
    assert a.CarvedBelow(a.next);
    forall k, l | 0 <= k < l < |addrs|
      ensures Disjoint(Region(addrs[k], sizes[k]), Region(addrs[l], sizes[l]))
    {
      assert Disjoint(a.regions[k], a.regions[l]);
    }
    slabCount := |a.slabs|;
    a.Dispose(heap);
    freed := heap.freed;
    live := heap.blocks;
    assert forall b :: b !in live;
  }

  /** malloc_test.go, eight requests of 8 to 15 bytes: they share one slab. */
  lemma {:induction false} EightToFifteenOneSlab()
    ensures Replay(Start, seq(ByteBoundary, i => ByteBoundary + i)).slabCount == 1
  {
    var sizes := seq(ByteBoundary, i => ByteBoundary + i);
    var c := Start;
    for n := 0 to |sizes|
      invariant Replay(c, sizes[n..]) == Replay(Start, sizes)
      invariant c.slabCount == 1 || (n == 0 && c == Start)
      invariant c.used <= 24 * n
    {
      assert sizes[n..][1..] == sizes[n + 1..];
      c := Step(c, sizes[n]);
    }
    assert sizes[|sizes|..] == [];
  }

  /** Replay takes the first request first. */
  lemma ReplayFirst(c: Cursor, x: nat, rest: seq<nat>)
    ensures Replay(c, [x] + rest) == Replay(Step(c, x), rest)
  {
    assert ([x] + rest)[1..] == rest;
  }

  /** Almost a full slab, then one boundary unit: the padding leaves no room,
      so the second request opens a second slab. */
  lemma SpanWithRounding()
    ensures Replay(Start, [SlabSize - ByteBoundary / 2, ByteBoundary]).slabCount == 2
  {
    ReplayFirst(Start, 4092, [8]);
    ReplayFirst(Cursor(1, 4092), 8, []);
    assert Pad(4092) == 4;
  }

  /** The same, with a one-byte request in between that already opens the
      second slab, and the next request fitting beside it; then a full slab
      and a single byte each need a slab of their own. */
  lemma SpanWithSmallerRequests()
    ensures Replay(Start, [SlabSize - ByteBoundary / 2, 1]).slabCount == 2
    ensures Replay(Start, [SlabSize - ByteBoundary / 2, 1, ByteBoundary]).slabCount == 2
    ensures Replay(Start, [SlabSize - ByteBoundary / 2, 1, ByteBoundary, SlabSize, 1]).slabCount == 4
  {
    assert Pad(4092) == 4 && Pad(1) == 7 && Pad(16) == 0 && Pad(4096) == 0;
    assert Step(Start, 4092) == Cursor(1, 4092);
    assert Step(Cursor(1, 4092), 1) == Cursor(2, 1);
    assert Step(Cursor(2, 1), 8) == Cursor(2, 16);
    assert Step(Cursor(2, 16), 4096) == Cursor(3, 4096);
    assert Step(Cursor(3, 4096), 1) == Cursor(4, 1);
    ReplayFirst(Start, 4092, [1]);
    ReplayFirst(Cursor(1, 4092), 1, []);
    ReplayFirst(Start, 4092, [1, 8]);
    ReplayFirst(Cursor(1, 4092), 1, [8]);
    ReplayFirst(Cursor(2, 1), 8, []);
    ReplayFirst(Start, 4092, [1, 8, 4096, 1]);
    ReplayFirst(Cursor(1, 4092), 1, [8, 4096, 1]);
    ReplayFirst(Cursor(2, 1), 8, [4096, 1]);
    ReplayFirst(Cursor(2, 16), 4096, [1]);
    ReplayFirst(Cursor(3, 4096), 1, []);
  }

  /** Two boundary units short of a slab, then three units: no padding is
      needed, but the request is longer than what is left. */
  lemma SpanWithoutRounding()
    ensures Replay(Start, [SlabSize - ByteBoundary * 2, ByteBoundary * 3]).slabCount == 2
  {
    ReplayFirst(Start, 4080, [24]);
    ReplayFirst(Cursor(1, 4080), 24, []);
    assert Pad(4080) == 0;
  }
}
