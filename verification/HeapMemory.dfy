/** The heap's bytes, and the 8-byte next pointers stored inside freed blocks. */
module HeapMemory {
  import opened Basics

  /** Bytes of a machine word (`usize`, and the only field of `ListNode`). */
  const WORD: nat := 8

  /** The heap region [start, start + |mem|). */
  datatype Heap = Heap(start: nat, mem: seq<Byte>, heads: seq<nat>)
  {
    function End(): nat {
      start + |mem|
    }

    predicate InHeap(a: nat, size: nat) {
      start <= a && a + size <= End()
    }
  }

  // ----- little-endian words

  function Encode(v: nat, n: nat): (bytes: seq<Byte>)
    ensures |bytes| == n
  {
    if n == 0 then [] else [v % 256] + Encode(v / 256, n - 1)
  }

  function Decode(bytes: seq<Byte>): nat {
    if bytes == [] then 0 else bytes[0] + 256 * Decode(bytes[1..])
  }

  function Power256(n: nat): nat {
    if n == 0 then 1 else 256 * Power256(n - 1)
  }

  lemma {:induction false} DecodeEncode(v: nat, n: nat)
    requires v < Power256(n)
    ensures Decode(Encode(v, n)) == v
  {
    if n != 0 {
      DecodeEncode(v / 256, n - 1);
    }
  }

  lemma WordRange()
    ensures Power256(WORD) == U64_VALUES
  {
  }

  // ----- reading and writing

  function ReadWord(h: Heap, a: nat): nat
    requires h.InHeap(a, WORD)
  {
    Decode(h.mem[a - h.start..a - h.start + WORD])
  }

  function WriteBytes(h: Heap, a: nat, bytes: seq<Byte>): (r: Heap)
    requires h.InHeap(a, |bytes|)
    ensures |r.mem| == |h.mem| && r.start == h.start && r.heads == h.heads
  {
    var o := a - h.start;
    h.(mem := h.mem[..o] + bytes + h.mem[o + |bytes|..])
  }

  function WriteWord(h: Heap, a: nat, v: nat): (r: Heap)
    requires h.InHeap(a, WORD)
    ensures |r.mem| == |h.mem| && r.start == h.start && r.heads == h.heads
  {
    WriteBytes(h, a, Encode(v, WORD))
  }

  /** The two heaps agree on [a, a + size). */
  ghost predicate SameBytes(h: Heap, g: Heap, a: nat, size: nat)
    requires h.start == g.start && |h.mem| == |g.mem| && h.InHeap(a, size)
  {
    h.mem[a - h.start..a - h.start + size] == g.mem[a - h.start..a - h.start + size]
  }

  predicate Apart(a: nat, sizeA: nat, b: nat, sizeB: nat) {
    a + sizeA <= b || b + sizeB <= a
  }

  /** A word reads back as written. */
  lemma ReadWritten(h: Heap, a: nat, v: nat)
    requires h.InHeap(a, WORD) && v < U64_VALUES
    ensures ReadWord(WriteWord(h, a, v), a) == v
  {
    WordRange();
    DecodeEncode(v, WORD);
    var o := a - h.start;
    assert WriteWord(h, a, v).mem[o..o + WORD] == Encode(v, WORD);
  }

  lemma SameBytesTrans(f: Heap, g: Heap, h: Heap, a: nat, size: nat)
    requires f.start == g.start == h.start && |f.mem| == |g.mem| == |h.mem| && f.InHeap(a, size)
    requires SameBytes(f, g, a, size) && SameBytes(g, h, a, size)
    ensures SameBytes(f, h, a, size)
  {
  }

  lemma SliceOfSlice(s: seq<Byte>, o: nat, size: nat, p: nat, n: nat)
    requires o <= p && p + n <= o + size <= |s|
    ensures s[p..p + n] == s[o..o + size][p - o..p - o + n]
  {
    var outer := s[o..o + size];
    var inner := outer[p - o..p - o + n];
    forall i | 0 <= i < n ensures inner[i] == s[p + i] {
      assert inner[i] == outer[p - o + i];
    }
  }

  lemma SameBytesWithin(h: Heap, g: Heap, a: nat, size: nat, b: nat, sizeB: nat)
    requires h.start == g.start && |h.mem| == |g.mem| && h.InHeap(a, size)
    requires a <= b && b + sizeB <= a + size && SameBytes(h, g, a, size)
    ensures SameBytes(h, g, b, sizeB)
  {
    SliceOfSlice(h.mem, a - h.start, size, b - h.start, sizeB);
    SliceOfSlice(g.mem, a - h.start, size, b - h.start, sizeB);
  }
}
