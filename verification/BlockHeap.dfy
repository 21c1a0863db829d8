/** The fixed-size block allocator of src/allocator/fixed_size_block.rs.

    The fallback allocator is known only by its contract: what it returns is in the heap, aligned and
    clear of every range it has handed out, and its own bookkeeping writes stay out of those ranges. */
module BlockHeap {
  import opened Basics
  import opened HeapMemory

  const BLOCK_SIZES: seq<nat> := [8, 16, 32, 64, 128, 256, 512, 1024, 2048]
  const CLASSES: nat := 9

  datatype Layout = Layout(size: nat, align: nat)

  predicate PowerOfTwo(n: nat)
  {
    n == 1 || (n > 1 && n % 2 == 0 && PowerOfTwo(n / 2))
  }

  predicate Times(a: nat, q: nat, x: nat) {
    a * q == x
  }

  /** `x` is a multiple of `a`. */
  ghost predicate Aligned(x: nat, a: nat) {
    exists q :: Times(a, q, x)
  }

  /** What GlobalAlloc demands of its callers. */
  predicate ValidLayout(layout: Layout) {
    layout.size > 0 && PowerOfTwo(layout.align)
  }

  function Required(layout: Layout): nat {
    if layout.size >= layout.align then layout.size else layout.align
  }

  /** `list_index`: the first class large enough, or CLASSES when there is none. */
  function ListIndex(layout: Layout): nat {
    FirstAtLeast(Required(layout), 0)
  }

  function FirstAtLeast(required: nat, k: nat): (r: nat)
    requires k <= CLASSES
    ensures k <= r <= CLASSES
    ensures r < CLASSES ==> BLOCK_SIZES[r] >= required
    ensures forall i :: k <= i < r ==> BLOCK_SIZES[i] < required
    decreases CLASSES - k
  {
    if k == CLASSES || BLOCK_SIZES[k] >= required then k else FirstAtLeast(required, k + 1)
  }

  /** What is asked of the fallback allocator for a request: a whole block, or the request itself. */
  function BlockLayout(layout: Layout): Layout {
    var k := ListIndex(layout);
    if k < CLASSES then Layout(BLOCK_SIZES[k], BLOCK_SIZES[k]) else layout
  }

  /** The fallback allocator's answer: a pointer (0 for null), and the heap after its own writes. */
  datatype Reply = Reply(ptr: nat, mem: seq<Byte>)

  // ----- the two operations on memory

  predicate HeadReadable(h: Heap, k: nat) {
    |h.heads| == CLASSES && (k < CLASSES && h.heads[k] != 0 ==> h.InHeap(h.heads[k], WORD))
  }

  function Alloc(h: Heap, layout: Layout, reply: Reply): (Heap, nat)
    requires HeadReadable(h, ListIndex(layout))
  {
    var k := ListIndex(layout);
    if k < CLASSES && h.heads[k] != 0 then
      var node := h.heads[k];
      (WriteWord(h, node, 0).(heads := h.heads[k := ReadWord(h, node)]), node)
    else
      (h.(mem := reply.mem), reply.ptr)
  }

  function Dealloc(h: Heap, ptr: nat, layout: Layout, reply: Reply): Heap
    requires |h.heads| == CLASSES && (ListIndex(layout) < CLASSES ==> h.InHeap(ptr, WORD))
  {
    var k := ListIndex(layout);
    if k < CLASSES then
      WriteWord(h, ptr, h.heads[k]).(heads := h.heads[k := ptr])
    else
      h.(mem := reply.mem)
  }

  // ----- bookkeeping: who holds which bytes

  /** `granted`: ranges handed out by the fallback allocator; `live`: blocks held by callers;
      `free`: the nodes of each free list, in order. */
  datatype State = State(heap: Heap, granted: map<nat, nat>, live: map<nat, Layout>, free: seq<seq<nat>>)

  /** A free list threaded through memory. */
  ghost predicate Linked(h: Heap, head: nat, nodes: seq<nat>)
    decreases |nodes|
  {
    if nodes == [] then head == 0
    else head == nodes[0] && head != 0 && h.InHeap(head, WORD) && Linked(h, ReadWord(h, head), nodes[1..])
  }

  ghost predicate Shape(s: State) {
    && |s.heap.heads| == CLASSES && |s.free| == CLASSES
    && 0 < s.heap.start && s.heap.End() <= U64_VALUES
  }

  ghost predicate RangesOk(s: State) {
    && (forall a :: a in s.granted ==> s.granted[a] > 0 && s.heap.InHeap(a, s.granted[a]))
    && (forall a, b :: a in s.granted && b in s.granted && a != b ==> Apart(a, s.granted[a], b, s.granted[b]))
  }

  ghost predicate IsFree(s: State, i: nat, n: nat) {
    i < CLASSES && n in s.granted && s.granted[n] == BLOCK_SIZES[i] && Aligned(n, BLOCK_SIZES[i]) && n !in s.live
  }

  ghost predicate FreeOk(s: State)
    requires |s.free| == CLASSES
  {
    forall i, p :: 0 <= i < CLASSES && 0 <= p < |s.free[i]| ==> IsFree(s, i, s.free[i][p])
  }

  /** No block is twice on a list or on two lists. */
  ghost predicate Distinct(free: seq<seq<nat>>) {
    forall i, p, j, q ::
      0 <= i < |free| && 0 <= p < |free[i]| && 0 <= j < |free| && 0 <= q < |free[j]| && free[i][p] == free[j][q] ==>
        i == j && p == q
  }

  ghost predicate ListsOk(s: State)
    requires Shape(s)
  {
    forall i :: 0 <= i < CLASSES ==> Linked(s.heap, s.heap.heads[i], s.free[i])
  }

  ghost predicate IsLive(s: State, a: nat)
    requires a in s.live
  {
    var block := BlockLayout(s.live[a]);
    ValidLayout(s.live[a]) && a in s.granted && s.granted[a] == block.size && Aligned(a, block.align)
  }

  ghost predicate LiveOk(s: State) {
    forall a :: a in s.live ==> IsLive(s, a)
  }

  ghost predicate OnSomeList(free: seq<seq<nat>>, a: nat) {
    exists i, p :: 0 <= i < |free| && 0 <= p < |free[i]| && free[i][p] == a
  }

  /** No block is lost: what the fallback allocator gave is live or on a list. */
  ghost predicate NothingLost(s: State) {
    forall a :: a in s.granted ==> a in s.live || OnSomeList(s.free, a)
  }

  ghost predicate HeapOk(s: State) {
    Shape(s) && RangesOk(s) && FreeOk(s) && Distinct(s.free) && ListsOk(s) && LiveOk(s) && NothingLost(s)
  }

  // ----- the fallback allocator's contract

  function WithMem(h: Heap, mem: seq<Byte>): (r: Heap)
    ensures r.start == h.start && r.heads == h.heads && r.mem == mem
  {
    h.(mem := mem)
  }

  ghost predicate KeepsGranted(s: State, except: set<nat>, mem: seq<Byte>)
    requires RangesOk(s)
  {
    |mem| == |s.heap.mem| &&
    forall a :: a in s.granted && a !in except ==> SameBytes(s.heap, WithMem(s.heap, mem), a, s.granted[a])
  }

  ghost predicate FallbackGives(s: State, want: Layout, reply: Reply)
    requires RangesOk(s)
  {
    && KeepsGranted(s, {}, reply.mem)
    && (reply.ptr != 0 ==>
          && s.heap.InHeap(reply.ptr, want.size)
          && Aligned(reply.ptr, want.align)
          && forall a :: a in s.granted ==> Apart(reply.ptr, want.size, a, s.granted[a]))
  }

  // ----- steps

  datatype Step =
    | AllocStep(layout: Layout, reply: Reply)
    | DeallocStep(ptr: nat, reply: Reply)
    | WriteStep(block: nat, offset: nat, bytes: seq<Byte>)

  /** Callers free live blocks with the layout they were allocated with and write inside live blocks;
      the fallback allocator keeps its contract. */
  ghost predicate Legal(s: State, step: Step)
    requires HeapOk(s)
  {
    match step
    case AllocStep(layout, reply) => ValidLayout(layout) && FallbackGives(s, BlockLayout(layout), reply)
    case DeallocStep(ptr, reply) => ptr in s.live && KeepsGranted(s, {ptr}, reply.mem)
    case WriteStep(block, offset, bytes) => block in s.live && offset + |bytes| <= s.live[block].size
  }

  ghost function AfterAlloc(s: State, layout: Layout, reply: Reply): (State, nat)
    requires HeapOk(s)
  {
    HeadsReadable(s, ListIndex(layout));
    var k := ListIndex(layout);
    var (heap, ptr) := Alloc(s.heap, layout, reply);
    if k < CLASSES && s.heap.heads[k] != 0 then
      (State(heap, s.granted, s.live[ptr := layout], s.free[k := s.free[k][1..]]), ptr)
    else if ptr == 0 then
      (s.(heap := heap), 0)
    else
      (State(heap, s.granted[ptr := BlockLayout(layout).size], s.live[ptr := layout], s.free), ptr)
  }

  ghost function AfterDealloc(s: State, ptr: nat, reply: Reply): State
    requires HeapOk(s) && ptr in s.live
  {
    var layout := s.live[ptr];
    var k := ListIndex(layout);
    LiveBlock(s, ptr);
    var heap := Dealloc(s.heap, ptr, layout, reply);
    if k < CLASSES then
      State(heap, s.granted, s.live - {ptr}, s.free[k := [ptr] + s.free[k]])
    else
      State(heap, s.granted - {ptr}, s.live - {ptr}, s.free)
  }

  ghost function AfterWrite(s: State, block: nat, offset: nat, bytes: seq<Byte>): State
    requires HeapOk(s) && Legal(s, WriteStep(block, offset, bytes))
  {
    LiveBlock(s, block);
    s.(heap := WriteBytes(s.heap, block + offset, bytes))
  }

  ghost function Apply(s: State, step: Step): State
    requires HeapOk(s) && Legal(s, step)
  {
    match step
    case AllocStep(layout, reply) => AfterAlloc(s, layout, reply).0
    case DeallocStep(ptr, reply) => AfterDealloc(s, ptr, reply)
    case WriteStep(block, offset, bytes) => AfterWrite(s, block, offset, bytes)
  }

  /** A nonempty list head is a block of its class: readable, and the first node. */
  lemma HeadsReadable(s: State, k: nat)
    requires HeapOk(s)
    ensures HeadReadable(s.heap, k)
    ensures k < CLASSES && s.heap.heads[k] != 0 ==> s.free[k] != [] && s.free[k][0] == s.heap.heads[k]
  {
  }

  // ----- block sizes

  lemma BlockFacts(k: nat)
    requires k < CLASSES
    ensures BLOCK_SIZES[k] >= WORD && BLOCK_SIZES[k] % WORD == 0 && PowerOfTwo(BLOCK_SIZES[k])
  {
  }

  lemma {:induction false} PowersDivide(a: nat, b: nat) returns (q: nat)
    requires PowerOfTwo(a) && PowerOfTwo(b) && a <= b
    ensures b == a * q
  {
    if a == 1 {
      q := b;
    } else {
      q := PowersDivide(a / 2, b / 2);
      assert a == 2 * (a / 2) && b == 2 * (b / 2);
    }
  }

  lemma Associate(a: nat, q: nat, r: nat)
    ensures (a * q) * r == a * (q * r)
  {
  }

  lemma AlignedToFactor(x: nat, a: nat, b: nat)
    requires PowerOfTwo(a) && PowerOfTwo(b) && a <= b && Aligned(x, b)
    ensures Aligned(x, a)
  {
    var q := PowersDivide(a, b);
    var r :| Times(b, r, x);
    Associate(a, q, r);
    assert Times(a, q * r, x);
  }

  /** A block chosen for a layout is large enough for it, and its alignment serves the layout's. */
  lemma BlockServes(layout: Layout, a: nat)
    requires ValidLayout(layout) && Aligned(a, BlockLayout(layout).align)
    ensures BlockLayout(layout).size >= layout.size
    ensures Aligned(a, layout.align)
  {
    var k := ListIndex(layout);
    if k < CLASSES {
      BlockFacts(k);
      AlignedToFactor(a, layout.align, BLOCK_SIZES[k]);
    }
  }

  /** What a caller has in a live block. */
  lemma LiveBlock(s: State, a: nat)
    requires HeapOk(s) && a in s.live
    ensures a in s.granted && s.heap.InHeap(a, s.granted[a]) && a > 0
    ensures s.live[a].size <= s.granted[a] && Aligned(a, s.live[a].align)
    ensures ListIndex(s.live[a]) < CLASSES ==> WORD <= BLOCK_SIZES[ListIndex(s.live[a])] == s.granted[a]
  {
    assert IsLive(s, a);
    BlockServes(s.live[a], a);
    if ListIndex(s.live[a]) < CLASSES {
      BlockFacts(ListIndex(s.live[a]));
    }
  }
}
