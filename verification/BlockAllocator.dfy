/** The allocator object: list heads and heap memory updated in place. */
module BlockAllocatorObject {
  import opened Basics
  import opened HeapMemory
  import opened BlockHeap
  import opened BlockHeapSafety

  /** `list_index`, as a search over the block sizes. */
  method FindListIndex(layout: Layout) returns (k: nat)
    ensures k == ListIndex(layout)
    ensures k <= CLASSES
    ensures forall i :: 0 <= i < k ==> BLOCK_SIZES[i] < layout.size || BLOCK_SIZES[i] < layout.align
    ensures k < CLASSES ==> BLOCK_SIZES[k] >= layout.size && BLOCK_SIZES[k] >= layout.align
  {
    var required := if layout.size >= layout.align then layout.size else layout.align;
    k := 0;
    while k < |BLOCK_SIZES| && BLOCK_SIZES[k] < required
      invariant k <= CLASSES
      invariant forall i :: 0 <= i < k ==> BLOCK_SIZES[i] < required
      invariant FirstAtLeast(required, k) == ListIndex(layout)
    {
      k := k + 1;
    }
  }

  class FixedSizeBlockAllocator {
    const start: nat
    var memory: seq<Byte>
    var listHeads: array<nat>
    ghost var granted: map<nat, nat>
    ghost var live: map<nat, Layout>
    ghost var free: seq<seq<nat>>

    ghost function View(): State
      reads this, listHeads
    {
      State(Heap(start, memory, listHeads[..]), granted, live, free)
    }

    ghost predicate Valid()
      reads this, listHeads
    {
      HeapOk(View())
    }

    constructor (start: nat, memory: seq<Byte>)
      requires 0 < start && start + |memory| <= U64_VALUES
      ensures Valid() && fresh(listHeads) && live == map[] && this.start == start && this.memory == memory
    {
      this.start, this.memory := start, memory;
      listHeads := new nat[CLASSES](i => 0);
      granted, live, free := map[], map[], seq(CLASSES, i => []);
      new;
      EmptyHeapIsSound(start, memory);
      assert listHeads[..] == seq(CLASSES, i => 0);
    }

    /** `reply` is what the fallback allocator answers if it is asked. */
    method Alloc(layout: Layout, reply: Reply) returns (ptr: nat)
      requires Valid() && Legal(View(), AllocStep(layout, reply))
      modifies this, listHeads
      ensures Valid() && (View(), ptr) == AfterAlloc(old(View()), layout, reply)
      ensures listHeads == old(listHeads)
    {
      hide HeapOk, FirstAtLeast, Aligned, KeepsGranted, ReadWord, WriteWord, PowerOfTwo;
      ghost var s := View();
      EveryStepIsSafe(s, AllocStep(layout, reply));
      var k := FindListIndex(layout);
      HeadsReadable(s, k);
      if k < CLASSES {
        HeadWord(s, k);
      }
      if k < CLASSES && listHeads[k] != 0 {
        var node := listHeads[k];
        var here := Heap(start, memory, listHeads[..]);
        listHeads[k] := ReadWord(here, node);
        memory := WriteWord(here, node, 0).mem;
        free := free[k := free[k][1..]];
        live := live[node := layout];
        ptr := node;
      } else {
        memory := reply.mem;
        ptr := reply.ptr;
        if ptr != 0 {
          granted := granted[ptr := BlockLayout(layout).size];
          live := live[ptr := layout];
        }
      }
      assert View() == AfterAlloc(s, layout, reply).0;
    }

    /** `layout` is the layout the block was allocated with. */
    method Dealloc(ptr: nat, layout: Layout, reply: Reply)
      requires Valid() && Legal(View(), DeallocStep(ptr, reply)) && live[ptr] == layout
      modifies this, listHeads
      ensures Valid() && View() == AfterDealloc(old(View()), ptr, reply)
      ensures listHeads == old(listHeads)
    {
      hide HeapOk, FirstAtLeast, Aligned, KeepsGranted, ReadWord, WriteWord, PowerOfTwo;
      ghost var s := View();
      EveryStepIsSafe(s, DeallocStep(ptr, reply));
      LiveBlock(s, ptr);
      var k := FindListIndex(layout);
      if k < CLASSES {
        HeadWord(s, k);
        var here := Heap(start, memory, listHeads[..]);
        assert WORD <= BLOCK_SIZES[k];
        memory := WriteWord(here, ptr, listHeads[k]).mem;
        listHeads[k] := ptr;
        free := free[k := [ptr] + free[k]];
        live := live - {ptr};
      } else {
        memory := reply.mem;
        granted := granted - {ptr};
        live := live - {ptr};
      }
      assert View() == AfterDealloc(s, ptr, reply);
    }
  }
}
