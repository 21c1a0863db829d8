/** Heap safety over every run: live blocks never overlap, free lists stay well formed inside freed
    memory, and nobody but its holder changes a live block. */
module BlockHeapSafety {
  import opened Basics
  import opened HeapMemory
  import opened BlockHeap

  // ----- free lists survive writes elsewhere

  lemma {:induction false} LinkedFrame(h: Heap, g: Heap, head: nat, nodes: seq<nat>)
    requires Linked(h, head, nodes) && g.start == h.start && |g.mem| == |h.mem|
    requires forall p :: 0 <= p < |nodes| ==> h.InHeap(nodes[p], WORD) && SameBytes(h, g, nodes[p], WORD)
    ensures Linked(g, head, nodes)
    decreases |nodes|
  {
    if nodes != [] {
      assert SameBytes(h, g, nodes[0], WORD);
      forall p | 0 <= p < |nodes[1..]| ensures h.InHeap(nodes[1..][p], WORD) && SameBytes(h, g, nodes[1..][p], WORD) {
        assert nodes[1..][p] == nodes[p + 1];
      }
      LinkedFrame(h, g, ReadWord(h, head), nodes[1..]);
    }
  }

  lemma FreeBlock(s: State, i: nat, p: nat)
    requires HeapOk(s) && i < CLASSES && p < |s.free[i]|
    ensures var n := s.free[i][p]; IsFree(s, i, n) && s.heap.InHeap(n, WORD) && s.granted[n] >= WORD
  {
    assert IsFree(s, i, s.free[i][p]);
    BlockFacts(i);
  }

  /** All lists but one stay linked when only `b` among the granted blocks changes. */
  lemma OtherListsStay(s: State, g: Heap, b: nat, i: nat, nodes: seq<nat>, head: nat)
    requires HeapOk(s) && g.start == s.heap.start && |g.mem| == |s.heap.mem|
    requires i < CLASSES && (nodes == s.free[i] || (s.free[i] != [] && nodes == s.free[i][1..]))
    requires Linked(s.heap, head, nodes) && b !in nodes
    requires forall a :: a in s.granted && a != b ==> SameBytes(s.heap, g, a, s.granted[a])
    ensures Linked(g, head, nodes)
  {
    forall p | 0 <= p < |nodes| ensures s.heap.InHeap(nodes[p], WORD) && SameBytes(s.heap, g, nodes[p], WORD) {
      var q := if nodes == s.free[i] then p else p + 1;
      assert nodes[p] == s.free[i][q];
      FreeBlock(s, i, q);
      SameBytesWithin(s.heap, g, nodes[p], s.granted[nodes[p]], nodes[p], WORD);
    }
    LinkedFrame(s.heap, g, head, nodes);
  }

  /** Among the granted blocks only `b` has changed. */
  ghost predicate OnlyChanges(s: State, g: Heap, b: nat)
    requires RangesOk(s)
  {
    && g.start == s.heap.start && |g.mem| == |s.heap.mem|
    && forall a :: a in s.granted && a != b ==> SameBytes(s.heap, g, a, s.granted[a])
  }

  /** A write inside one granted block leaves the others alone. */
  lemma WriteStaysInBlock(s: State, b: nat, at: nat, bytes: seq<Byte>)
    requires RangesOk(s) && b in s.granted && b <= at && at + |bytes| <= b + s.granted[b]
    ensures OnlyChanges(s, WriteBytes(s.heap, at, bytes), b)
  {
  }

  // ----- allocation from a list

  lemma PopDistinct(free: seq<seq<nat>>, k: nat)
    requires Distinct(free) && k < |free| && free[k] != []
    ensures Distinct(free[k := free[k][1..]])
    ensures !OnSomeList(free[k := free[k][1..]], free[k][0])
    ensures forall a :: OnSomeList(free, a) && a != free[k][0] ==> OnSomeList(free[k := free[k][1..]], a)
  {
    var r := free[k := free[k][1..]];
    forall i, p | 0 <= i < |r| && 0 <= p < |r[i]| ensures r[i][p] == free[i][if i == k then p + 1 else p] {
    }
    forall a | OnSomeList(free, a) && a != free[k][0] ensures OnSomeList(r, a) {
      var i, p :| 0 <= i < |free| && 0 <= p < |free[i]| && free[i][p] == a;
      assert r[i][if i == k then p - 1 else p] == a;
    }
  }

  ghost predicate Pops(s: State, layout: Layout)
    requires Shape(s)
  {
    ListIndex(layout) < CLASSES && s.heap.heads[ListIndex(layout)] != 0
  }

  lemma PopLists(s: State, layout: Layout, reply: Reply)
    requires HeapOk(s) && Pops(s, layout)
    ensures var (t, node) := AfterAlloc(s, layout, reply);
            Shape(t) && ListsOk(t) && OnlyChanges(s, t.heap, node) && node in s.granted && node !in s.live
  {
    var k := ListIndex(layout);
    var (t, node) := AfterAlloc(s, layout, reply);
    HeadsReadable(s, k);
    FreeBlock(s, k, 0);
    WriteStaysInBlock(s, node, node, Encode(0, WORD));
    PopDistinct(s.free, k);
    forall i | 0 <= i < CLASSES ensures Linked(t.heap, t.heap.heads[i], t.free[i]) {
      assert Linked(s.heap, s.heap.heads[i], s.free[i]);
      OtherListsStay(s, t.heap, node, i, t.free[i], t.heap.heads[i]);
    }
  }

  lemma PopBlocks(s: State, layout: Layout, reply: Reply)
    requires HeapOk(s) && ValidLayout(layout) && Pops(s, layout)
    ensures var t := AfterAlloc(s, layout, reply).0;
            |t.free| == CLASSES && RangesOk(t) && FreeOk(t) && Distinct(t.free) && LiveOk(t) && NothingLost(t)
  {
    var k := ListIndex(layout);
    var (t, node) := AfterAlloc(s, layout, reply);
    HeadsReadable(s, k);
    FreeBlock(s, k, 0);
    PopDistinct(s.free, k);
    forall i, p | 0 <= i < CLASSES && 0 <= p < |t.free[i]| ensures IsFree(t, i, t.free[i][p]) {
      assert OnSomeList(t.free, t.free[i][p]);
      assert t.free[i][p] == s.free[i][if i == k then p + 1 else p];
      assert IsFree(s, i, t.free[i][p]);
    }
    forall a | a in t.live ensures IsLive(t, a) {
      if a != node { assert IsLive(s, a); }
    }
  }

  // ----- allocation from the fallback

  /** Lists survive any change that stays off them. */
  lemma ListsStay(s: State, g: Heap, b: nat)
    requires HeapOk(s) && OnlyChanges(s, g, b) && (b in s.live || b !in s.granted)
    ensures forall i :: 0 <= i < CLASSES ==> Linked(g, s.heap.heads[i], s.free[i])
  {
    forall i | 0 <= i < CLASSES ensures Linked(g, s.heap.heads[i], s.free[i]) {
      assert Linked(s.heap, s.heap.heads[i], s.free[i]);
      forall p | 0 <= p < |s.free[i]| ensures s.free[i][p] != b {
        assert IsFree(s, i, s.free[i][p]);
      }
      OtherListsStay(s, g, b, i, s.free[i], s.heap.heads[i]);
    }
  }

  lemma ReplyKeeps(s: State, layout: Layout, reply: Reply)
    requires HeapOk(s) && Legal(s, AllocStep(layout, reply))
    ensures OnlyChanges(s, WithMem(s.heap, reply.mem), reply.ptr) && reply.ptr !in s.granted
  {
  }

  /** The blocks' bookkeeping does not depend on the contents of memory. */
  lemma SameBooks(s: State, t: State)
    requires HeapOk(s) && t.granted == s.granted && t.live == s.live && t.free == s.free
    requires t.heap.start == s.heap.start && |t.heap.mem| == |s.heap.mem|
    ensures RangesOk(t) && FreeOk(t) && LiveOk(t) && NothingLost(t)
  {
  }

  ghost function Grown(s: State, layout: Layout, reply: Reply): State {
    State(WithMem(s.heap, reply.mem), s.granted[reply.ptr := BlockLayout(layout).size], s.live[reply.ptr := layout],
          s.free)
  }

  lemma GrowRanges(s: State, layout: Layout, reply: Reply)
    requires HeapOk(s) && Legal(s, AllocStep(layout, reply)) && reply.ptr != 0
    ensures RangesOk(Grown(s, layout, reply))
  {
    hide ListsOk, Distinct, FreeOk, LiveOk, NothingLost, Aligned, KeepsGranted, BlockLayout, PowerOfTwo;
    ReplyKeeps(s, layout, reply);
    BlockIsNonempty(layout);
  }

  lemma GrowLosesNothing(s: State, layout: Layout, reply: Reply)
    requires HeapOk(s)
    ensures NothingLost(Grown(s, layout, reply))
  {
    hide RangesOk, ListsOk, Distinct, FreeOk, LiveOk, OnSomeList, BlockLayout;
  }

  lemma GrowBlocks(s: State, layout: Layout, reply: Reply)
    requires HeapOk(s) && Legal(s, AllocStep(layout, reply)) && reply.ptr != 0
    ensures FreeOk(Grown(s, layout, reply)) && LiveOk(Grown(s, layout, reply))
  {
    hide NothingLost, ListsOk, Distinct, Aligned, FirstAtLeast, ValidLayout, RangesOk, KeepsGranted;
    var t := Grown(s, layout, reply);
    ReplyKeeps(s, layout, reply);
    forall i, p | 0 <= i < CLASSES && 0 <= p < |t.free[i]| ensures IsFree(t, i, t.free[i][p]) {
      assert IsFree(s, i, s.free[i][p]);
    }
    forall a | a in t.live ensures IsLive(t, a) {
      if a != reply.ptr { assert IsLive(s, a); }
    }
  }

  lemma GrowOk(s: State, layout: Layout, reply: Reply)
    requires HeapOk(s) && Legal(s, AllocStep(layout, reply)) && !Pops(s, layout)
    ensures var (t, ptr) := AfterAlloc(s, layout, reply);
            HeapOk(t) && OnlyChanges(s, t.heap, ptr) && ptr !in s.live
  {
    var (t, ptr) := AfterAlloc(s, layout, reply);
    ReplyKeeps(s, layout, reply);
    ListsStay(s, WithMem(s.heap, reply.mem), ptr);
    if ptr != 0 {
      GrowRanges(s, layout, reply);
      GrowLosesNothing(s, layout, reply);
      GrowBlocks(s, layout, reply);
    } else {
      SameBooks(s, t);
    }
    assert forall a :: a in s.live ==> IsLive(s, a);
  }

  lemma BlockIsNonempty(layout: Layout)
    requires ValidLayout(layout)
    ensures BlockLayout(layout).size > 0
  {
  }

  // ----- freeing

  lemma PushDistinct(free: seq<seq<nat>>, k: nat, a: nat)
    requires Distinct(free) && k < |free| && !OnSomeList(free, a)
    ensures Distinct(free[k := [a] + free[k]])
    ensures forall b :: OnSomeList(free, b) || b == a ==> OnSomeList(free[k := [a] + free[k]], b)
  {
    var r := free[k := [a] + free[k]];
    forall i, p | 0 <= i < |r| && 0 <= p < |r[i]|
      ensures r[i][p] == if i == k && p == 0 then a else free[i][if i == k then p - 1 else p]
    {
    }
    assert forall i, p :: 0 <= i < |free| && 0 <= p < |free[i]| ==> free[i][p] != a;
    forall b | OnSomeList(free, b) || b == a ensures OnSomeList(r, b) {
      if b == a {
        assert r[k][0] == a;
      } else {
        var i, p :| 0 <= i < |free| && 0 <= p < |free[i]| && free[i][p] == b;
        assert r[i][if i == k then p + 1 else p] == b;
      }
    }
  }

  lemma LiveOnNoList(s: State, a: nat)
    requires HeapOk(s) && a in s.live
    ensures !OnSomeList(s.free, a)
  {
    forall i, p | 0 <= i < |s.free| && 0 <= p < |s.free[i]| ensures s.free[i][p] != a {
      assert IsFree(s, i, s.free[i][p]);
    }
  }

  lemma PushLists(s: State, ptr: nat, reply: Reply)
    requires HeapOk(s) && ptr in s.live && ListIndex(s.live[ptr]) < CLASSES
    ensures var t := AfterDealloc(s, ptr, reply);
            Shape(t) && ListsOk(t) && OnlyChanges(s, t.heap, ptr)
  {
    var k := ListIndex(s.live[ptr]);
    var t := AfterDealloc(s, ptr, reply);
    LiveBlock(s, ptr);
    HeadsReadable(s, k);
    WriteStaysInBlock(s, ptr, ptr, Encode(s.heap.heads[k], WORD));
    ReadWritten(s.heap, ptr, s.heap.heads[k]);
    ListsStay(s, t.heap, ptr);
    assert t.free[k][1..] == s.free[k];
    assert ReadWord(t.heap, ptr) == ReadWord(WriteWord(s.heap, ptr, s.heap.heads[k]), ptr);
  }

  lemma PushRanges(s: State, ptr: nat, reply: Reply)
    requires HeapOk(s) && ptr in s.live && ListIndex(s.live[ptr]) < CLASSES
    ensures var t := AfterDealloc(s, ptr, reply);
            RangesOk(t) && Distinct(t.free) && NothingLost(t)
  {
    hide ListsOk, LiveOk, FreeOk;
    LiveOnNoList(s, ptr);
    PushDistinct(s.free, ListIndex(s.live[ptr]), ptr);
  }

  lemma PushBlocks(s: State, ptr: nat, reply: Reply)
    requires HeapOk(s) && ptr in s.live && ListIndex(s.live[ptr]) < CLASSES
    ensures var t := AfterDealloc(s, ptr, reply);
            |t.free| == CLASSES && FreeOk(t) && LiveOk(t)
  {
    hide ListsOk, Distinct, NothingLost, Aligned, RangesOk, FirstAtLeast, ValidLayout;
    var k := ListIndex(s.live[ptr]);
    var t := AfterDealloc(s, ptr, reply);
    assert IsLive(s, ptr);
    forall i, p | 0 <= i < CLASSES && 0 <= p < |t.free[i]| ensures IsFree(t, i, t.free[i][p]) {
      if !(i == k && p == 0) {
        assert t.free[i][p] == s.free[i][if i == k then p - 1 else p];
        assert IsFree(s, i, t.free[i][p]);
      }
    }
    forall a | a in t.live ensures IsLive(t, a) { assert IsLive(s, a); }
  }

  lemma ShrinkRanges(s: State, ptr: nat, reply: Reply)
    requires HeapOk(s) && ptr in s.live && ListIndex(s.live[ptr]) == CLASSES
    ensures RangesOk(AfterDealloc(s, ptr, reply).(heap := s.heap)) && NothingLost(AfterDealloc(s, ptr, reply))
  {
    hide ListsOk, Distinct, FreeOk, LiveOk, Aligned, FirstAtLeast;
  }

  lemma ShrinkBlocks(s: State, ptr: nat, reply: Reply)
    requires HeapOk(s) && Legal(s, DeallocStep(ptr, reply)) && ListIndex(s.live[ptr]) == CLASSES
    ensures var t := AfterDealloc(s, ptr, reply);
            |t.free| == CLASSES && RangesOk(t) && FreeOk(t) && LiveOk(t) && NothingLost(t)
  {
    hide ListsOk, Distinct, Aligned, FirstAtLeast, ValidLayout, NothingLost;
    var t := AfterDealloc(s, ptr, reply);
    ShrinkRanges(s, ptr, reply);
    forall i, p | 0 <= i < CLASSES && 0 <= p < |t.free[i]| ensures IsFree(t, i, t.free[i][p]) {
      assert IsFree(s, i, s.free[i][p]);
    }
    forall a | a in t.live ensures IsLive(t, a) { assert IsLive(s, a); }
  }

  lemma ShrinkOk(s: State, ptr: nat, reply: Reply)
    requires HeapOk(s) && Legal(s, DeallocStep(ptr, reply)) && ListIndex(s.live[ptr]) == CLASSES
    ensures HeapOk(AfterDealloc(s, ptr, reply)) && OnlyChanges(s, AfterDealloc(s, ptr, reply).heap, ptr)
  {
    hide RangesOk, FreeOk, LiveOk, NothingLost, Distinct, Linked;
    var t := AfterDealloc(s, ptr, reply);
    ShrinkBlocks(s, ptr, reply);
    ListsStay(s, t.heap, ptr);
  }

  // ----- callers writing into their blocks

  lemma WriteOk(s: State, block: nat, offset: nat, bytes: seq<Byte>)
    requires HeapOk(s) && Legal(s, WriteStep(block, offset, bytes))
    ensures HeapOk(AfterWrite(s, block, offset, bytes)) &&
            OnlyChanges(s, AfterWrite(s, block, offset, bytes).heap, block)
  {
    hide RangesOk, FreeOk, LiveOk, NothingLost, Distinct, Linked;
    var t := AfterWrite(s, block, offset, bytes);
    LiveBlock(s, block);
    WriteStaysInBlock(s, block, block + offset, bytes);
    ListsStay(s, t.heap, block);
    SameBooks(s, t);
  }

  // ----- every step, every run

  /** The block a step may change: the one it hands out, frees or writes to. */
  ghost function Touched(s: State, step: Step): nat
    requires HeapOk(s) && Legal(s, step)
  {
    match step
    case AllocStep(layout, reply) => AfterAlloc(s, layout, reply).1
    case DeallocStep(ptr, _) => ptr
    case WriteStep(block, _, _) => block
  }

  /** Every step keeps the heap sound, and no byte of a live block changes unless the step frees it or
      is its holder's own write: in particular no next pointer is ever written into a live block. */
  lemma EveryStepIsSafe(s: State, step: Step)
    requires HeapOk(s) && Legal(s, step)
    ensures HeapOk(Apply(s, step))
    ensures OnlyChanges(s, Apply(s, step).heap, Touched(s, step))
    ensures step.AllocStep? ==> Touched(s, step) !in s.live
  {
    match step
    case AllocStep(layout, reply) =>
      if Pops(s, layout) {
        PopLists(s, layout, reply);
        PopBlocks(s, layout, reply);
      } else {
        GrowOk(s, layout, reply);
      }
    case DeallocStep(ptr, reply) =>
      if ListIndex(s.live[ptr]) < CLASSES {
        PushLists(s, ptr, reply);
        PushRanges(s, ptr, reply);
        PushBlocks(s, ptr, reply);
      } else {
        ShrinkOk(s, ptr, reply);
      }
    case WriteStep(block, offset, bytes) => WriteOk(s, block, offset, bytes);
  }

  /** Distinct live blocks share no byte. */
  lemma LiveBlocksApart(s: State, a: nat, b: nat)
    requires HeapOk(s) && a in s.live && b in s.live && a != b
    ensures Apart(a, s.live[a].size, b, s.live[b].size)
  {
    LiveBlock(s, a);
    LiveBlock(s, b);
    assert Apart(a, s.granted[a], b, s.granted[b]);
  }

  /** Allocation: a non-null result is a block for the caller alone, large enough, aligned and clear of
      every other live block. */
  lemma AllocGivesBlock(s: State, layout: Layout, reply: Reply)
    requires HeapOk(s) && Legal(s, AllocStep(layout, reply)) && AfterAlloc(s, layout, reply).1 != 0
    ensures var (t, ptr) := AfterAlloc(s, layout, reply);
            && t.live == s.live[ptr := layout] && ptr !in s.live
            && t.heap.InHeap(ptr, layout.size) && Aligned(ptr, layout.align)
            && forall a :: a in s.live ==> Apart(ptr, layout.size, a, s.live[a].size)
  {
    hide HeapOk, Aligned, FirstAtLeast, PowerOfTwo;
    var (t, ptr) := AfterAlloc(s, layout, reply);
    EveryStepIsSafe(s, AllocStep(layout, reply));
    LiveBlock(t, ptr);
    forall a | a in s.live ensures Apart(ptr, layout.size, a, s.live[a].size) {
      LiveBlocksApart(t, ptr, a);
    }
  }

  /** Allocation answers with the first block of its list or, if that is empty, with what the fallback
      allocator gives; so the answer is null exactly for an empty list and a fallback that has nothing. */
  lemma AllocAnswers(s: State, layout: Layout, reply: Reply)
    requires HeapOk(s) && Legal(s, AllocStep(layout, reply))
    ensures var k, (t, ptr) := ListIndex(layout), AfterAlloc(s, layout, reply);
            var listed := k < CLASSES && s.free[k] != [];
            && ptr == (if listed then s.free[k][0] else reply.ptr)
            && (ptr == 0 <==> !listed && reply.ptr == 0)
            && t.free == (if listed then s.free[k := s.free[k][1..]] else s.free)
            && (!listed ==> t.heap == s.heap.(mem := reply.mem))
  {
    var k := ListIndex(layout);
    if k < CLASSES {
      HeadsReadable(s, k);
      assert Linked(s.heap, s.heap.heads[k], s.free[k]);
    }
  }

  /** A block taken from a list comes with its next pointer cleared, and its successor heads the list. */
  lemma PoppedBlockIsCleared(s: State, layout: Layout, reply: Reply)
    requires HeapOk(s) && ListIndex(layout) < CLASSES && s.free[ListIndex(layout)] != []
    ensures var k, (t, ptr) := ListIndex(layout), AfterAlloc(s, layout, reply);
            && t.heap.InHeap(ptr, WORD) && ReadWord(t.heap, ptr) == 0
            && t.heap.heads == s.heap.heads[k := if |s.free[k]| == 1 then 0 else s.free[k][1]]
            && (forall i :: 0 <= i < |s.heap.mem| && !(ptr <= s.heap.start + i < ptr + WORD) ==>
                  t.heap.mem[i] == s.heap.mem[i])
  {
    hide FirstAtLeast, Aligned, ReadWord, RangesOk, FreeOk, Distinct, LiveOk, NothingLost;
    var k := ListIndex(layout);
    HeadsReadable(s, k);
    assert Linked(s.heap, s.heap.heads[k], s.free[k]);
    var ptr := s.heap.heads[k];
    ReadWritten(s.heap, ptr, 0);
    var t := AfterAlloc(s, layout, reply).0;
    assert ReadWord(t.heap, ptr) == ReadWord(WriteWord(s.heap, ptr, 0), ptr) by {
      SameRead(t.heap, WriteWord(s.heap, ptr, 0), ptr);
    }
    assert Linked(s.heap, ReadWord(s.heap, ptr), s.free[k][1..]);
  }

  lemma SameRead(g: Heap, h: Heap, a: nat)
    requires g.start == h.start && g.mem == h.mem && g.InHeap(a, WORD)
    ensures ReadWord(g, a) == ReadWord(h, a)
  {
  }

  /** The classes are the powers of two from 8 to 2048, and a request is served by the smallest that covers
      both its size and its alignment; only one above 2048 goes to the fallback as it is. */
  lemma RequestsGetSmallestBlock(layout: Layout)
    ensures var block, need := BlockLayout(layout), if layout.size < layout.align then layout.align else layout.size;
            if need > 2048 then ListIndex(layout) == CLASSES && block == layout
            else
              && ListIndex(layout) < CLASSES && block.size == block.align == BLOCK_SIZES[ListIndex(layout)] >= need
              && block.size in {8, 16, 32, 64, 128, 256, 512, 1024, 2048}
              && (block.size == 8 || block.size / 2 < need)
  {
    var k := ListIndex(layout);
    if k < CLASSES {
      if k > 0 { assert BLOCK_SIZES[k - 1] < Required(layout); }
    } else {
      assert BLOCK_SIZES[CLASSES - 1] < Required(layout);
    }
  }

  /** A block above the classes goes back to the fallback allocator; no list changes. */
  lemma LargeBlockGoesBack(s: State, ptr: nat, reply: Reply)
    requires HeapOk(s) && Legal(s, DeallocStep(ptr, reply)) && ListIndex(s.live[ptr]) == CLASSES
    ensures var t := AfterDealloc(s, ptr, reply);
            && t.heap == s.heap.(mem := reply.mem) && t.free == s.free
            && t.granted == s.granted - {ptr} && t.live == s.live - {ptr}
  {
  }

  /** Freeing a block and allocating from its class again returns that block, and restores the lists. */
  lemma FreedBlockIsReused(s: State, ptr: nat, reply: Reply, layout: Layout, reply2: Reply)
    requires HeapOk(s) && Legal(s, DeallocStep(ptr, reply))
    requires ListIndex(layout) == ListIndex(s.live[ptr]) < CLASSES
    ensures (EveryStepIsSafe(s, DeallocStep(ptr, reply));
             var (t, again) := AfterAlloc(AfterDealloc(s, ptr, reply), layout, reply2);
             && again == ptr && t.heap.heads == s.heap.heads
             && t.free == s.free && t.granted == s.granted && t.live == s.live[ptr := layout])
  {
    hide HeapOk, FirstAtLeast, ReadWord, WriteWord, KeepsGranted, Aligned;
    EveryStepIsSafe(s, DeallocStep(ptr, reply));
    HeadsReadable(AfterDealloc(s, ptr, reply), ListIndex(layout));
    FreedBlockHeads(s, ptr, reply);
  }

  /** After a free the block is the head of its list and points at the previous head. */
  lemma FreedBlockHeads(s: State, ptr: nat, reply: Reply)
    requires HeapOk(s) && ptr in s.live && ListIndex(s.live[ptr]) < CLASSES
    ensures var k, t := ListIndex(s.live[ptr]), AfterDealloc(s, ptr, reply);
            && |s.heap.heads| == |t.heap.heads| == |s.free| == |t.free| == CLASSES
            && t.heap.heads == s.heap.heads[k := ptr] && ptr != 0
            && t.heap.InHeap(ptr, WORD) && ReadWord(t.heap, ptr) == s.heap.heads[k]
            && t.free == s.free[k := [ptr] + s.free[k]] && t.free[k][1..] == s.free[k]
  {
    hide FirstAtLeast, Aligned;
    var k := ListIndex(s.live[ptr]);
    LiveBlock(s, ptr);
    HeadWord(s, k);
    ReadWritten(s.heap, ptr, s.heap.heads[k]);
    assert ReadWord(AfterDealloc(s, ptr, reply).heap, ptr) == ReadWord(WriteWord(s.heap, ptr, s.heap.heads[k]), ptr);
  }

  lemma HeadWord(s: State, k: nat)
    requires HeapOk(s) && k < CLASSES
    ensures |s.heap.heads| == CLASSES && |s.free| == CLASSES && s.heap.heads[k] < U64_VALUES
  {
  }

  /** Nothing granted, all lists empty. */
  ghost function FreshHeap(start: nat, mem: seq<Byte>): State {
    State(Heap(start, mem, seq(CLASSES, i => 0)), map[], map[], seq(CLASSES, i => []))
  }

  lemma EmptyHeapIsSound(start: nat, mem: seq<Byte>)
    requires 0 < start && start + |mem| <= U64_VALUES
    ensures HeapOk(FreshHeap(start, mem))
  {
  }

  // ----- runs

  ghost predicate LegalRun(s: State, steps: seq<Step>)
    requires HeapOk(s)
    decreases |steps|
  {
    steps == [] || (Legal(s, steps[0]) && (EveryStepIsSafe(s, steps[0]); LegalRun(Apply(s, steps[0]), steps[1..])))
  }

  ghost function Run(s: State, steps: seq<Step>): State
    requires HeapOk(s) && LegalRun(s, steps)
    decreases |steps|
  {
    if steps == [] then s
    else
      EveryStepIsSafe(s, steps[0]);
      Run(Apply(s, steps[0]), steps[1..])
  }

  /** The run neither frees nor writes to `block`. */
  ghost predicate LeavesAlone(steps: seq<Step>, block: nat) {
    forall i :: 0 <= i < |steps| ==>
                  && (steps[i].DeallocStep? ==> steps[i].ptr != block)
                  && (steps[i].WriteStep? ==> steps[i].block != block)
  }

  /** `block` is live in both states, with the same layout and the same bytes. */
  ghost predicate Kept(s: State, t: State, block: nat) {
    && block in s.live && block in t.live && t.live[block] == s.live[block]
    && t.heap.start == s.heap.start && |t.heap.mem| == |s.heap.mem|
    && s.heap.InHeap(block, s.live[block].size) && SameBytes(s.heap, t.heap, block, s.live[block].size)
  }

  lemma KeptTrans(s: State, t: State, u: State, block: nat)
    requires Kept(s, t, block) && Kept(t, u, block)
    ensures Kept(s, u, block)
  {
    SameBytesTrans(s.heap, t.heap, u.heap, block, s.live[block].size);
  }

  lemma KeptSelf(s: State, block: nat)
    requires HeapOk(s) && block in s.live
    ensures Kept(s, s, block)
  {
    hide HeapOk;
    LiveBlock(s, block);
  }

  lemma {:induction false} RunsAreSound(s: State, steps: seq<Step>)
    requires HeapOk(s) && LegalRun(s, steps)
    ensures var t := Run(s, steps);
            HeapOk(t) && t.heap.start == s.heap.start && |t.heap.mem| == |s.heap.mem|
    decreases |steps|
  {
    if steps != [] {
      hide HeapOk, Legal, Apply, OnlyChanges, Touched;
      EveryStepIsSafe(s, steps[0]);
      SameExtent(s, steps[0]);
      RunsAreSound(Apply(s, steps[0]), steps[1..]);
    }
  }

  lemma SameExtent(s: State, step: Step)
    requires HeapOk(s) && Legal(s, step)
    ensures Apply(s, step).heap.start == s.heap.start && |Apply(s, step).heap.mem| == |s.heap.mem|
  {
    hide HeapOk, FirstAtLeast, Aligned, ReadWord, Legal;
    EveryStepIsSafe(s, step);
  }

  lemma {:induction false} BlockKept(s: State, steps: seq<Step>, block: nat)
    requires HeapOk(s) && LegalRun(s, steps) && block in s.live && LeavesAlone(steps, block)
    ensures Kept(s, Run(s, steps), block)
    decreases |steps|
  {
    hide HeapOk, Legal, Apply, Kept, OnlyChanges, Touched;
    if steps == [] {
      KeptSelf(s, block);
    } else {
      EveryStepIsSafe(s, steps[0]);
      StepKeepsBlock(s, steps[0], block);
      KeptLive(s, Apply(s, steps[0]), block);
      BlockKept(Apply(s, steps[0]), steps[1..], block);
      KeptTrans(s, Apply(s, steps[0]), Run(s, steps), block);
    }
  }

  lemma KeptLive(s: State, t: State, block: nat)
    requires Kept(s, t, block)
    ensures block in t.live
  {
  }

  /** Heap safety: every legal run keeps the heap sound, and a block that is neither freed nor written to by its
      holder stays live with the same layout and the same bytes, whatever else is allocated, freed and written. */
  lemma HeapSafety(s: State, steps: seq<Step>)
    requires HeapOk(s) && LegalRun(s, steps)
    ensures HeapOk(Run(s, steps))
    ensures forall block :: block in s.live && LeavesAlone(steps, block) ==> Kept(s, Run(s, steps), block)
  {
    hide HeapOk, LegalRun, Run, LeavesAlone, Kept;
    RunsAreSound(s, steps);
    forall block | block in s.live && LeavesAlone(steps, block) ensures Kept(s, Run(s, steps), block) {
      BlockKept(s, steps, block);
    }
  }

  /** Over every legal run of a fresh allocator, the live blocks lie in the heap, are aligned as asked and
      share no byte. */
  lemma FreshHeapStaysSafe(start: nat, mem: seq<Byte>, steps: seq<Step>, a: nat, b: nat)
    requires 0 < start && start + |mem| <= U64_VALUES
    requires (EmptyHeapIsSound(start, mem); LegalRun(FreshHeap(start, mem), steps))
    ensures (EmptyHeapIsSound(start, mem);
             var t := Run(FreshHeap(start, mem), steps);
             && HeapOk(t)
             && (a in t.live ==> start <= a && a + t.live[a].size <= start + |mem| && Aligned(a, t.live[a].align))
             && (a in t.live && b in t.live && a != b ==> Apart(a, t.live[a].size, b, t.live[b].size)))
  {
    hide HeapOk, LegalRun, Run, Apart, Aligned;
    EmptyHeapIsSound(start, mem);
    var t := Run(FreshHeap(start, mem), steps);
    RunsAreSound(FreshHeap(start, mem), steps);
    if a in t.live { LiveBlock(t, a); }
    if a in t.live && b in t.live && a != b { LiveBlocksApart(t, a, b); }
  }

  lemma StepKeepsBlock(s: State, step: Step, block: nat)
    requires HeapOk(s) && Legal(s, step) && block in s.live
    requires (step.DeallocStep? ==> step.ptr != block) && (step.WriteStep? ==> step.block != block)
    ensures Kept(s, Apply(s, step), block)
  {
    hide HeapOk, FirstAtLeast, Aligned, ReadWord, WriteBytes, Legal;
    var t := Apply(s, step);
    LiveBlock(s, block);
    EveryStepIsSafe(s, step);
    StaysLive(s, step, block);
    SameBytesWithin(s.heap, t.heap, block, s.granted[block], block, s.live[block].size);
  }

  lemma StaysLive(s: State, step: Step, block: nat)
    requires HeapOk(s) && Legal(s, step) && block in s.live && (step.DeallocStep? ==> step.ptr != block)
    ensures block in Apply(s, step).live && Apply(s, step).live[block] == s.live[block]
  {
    hide HeapOk, FirstAtLeast, Aligned, ReadWord, WriteBytes, KeepsGranted;
    EveryStepIsSafe(s, step);
  }
}
