/** The boot frame allocator of src/memory.rs. */
module FrameAllocator {
  import opened Basics

  datatype Region = Region(start: nat, end: nat, usable: bool)

  /** `(start..end).step_by(4096)`, each address turned into the number of the frame containing it. */
  function Steps(start: nat, end: nat): seq<nat>
    decreases end - start
  {
    if start >= end then [] else [start / PAGE] + Steps(start + PAGE, end)
  }

  /** `usable_frames`: the frames of the usable regions, in memory-map order. */
  function UsableFrames(regions: seq<Region>): seq<nat> {
    if regions == [] then []
    else (if regions[0].usable then Steps(regions[0].start, regions[0].end) else []) + UsableFrames(regions[1..])
  }

  class BootInfoFrameAllocator {
    const memoryMap: seq<Region>
    var next: nat

    constructor (memoryMap: seq<Region>)
      ensures this.memoryMap == memoryMap && next == 0
    {
      this.memoryMap, next := memoryMap, 0;
    }

    /** The k-th call returns the k-th usable frame; `next` moves on even when there is none left. */
    method AllocateFrame() returns (frame: Option<nat>)
      modifies this
      ensures next == old(next) + 1
      ensures frame == var frames := UsableFrames(memoryMap);
                       if old(next) < |frames| then Some(frames[old(next)]) else None
    {
      var rest := UsableFrames(memoryMap);
      var skipped := 0;
      while skipped < next && |rest| > 0
        modifies {}
        invariant skipped <= next
        invariant rest == if skipped <= |UsableFrames(memoryMap)| then UsableFrames(memoryMap)[skipped..] else []
      {
        rest := rest[1..];
        skipped := skipped + 1;
      }
      frame := if |rest| > 0 then Some(rest[0]) else None;
      next := next + 1;
    }
  }

  // ----- well-formed memory maps

  predicate PageAligned(r: Region) {
    r.start % PAGE == 0 && r.end % PAGE == 0 && r.start <= r.end
  }

  predicate Apart(a: Region, b: Region) {
    a.end <= b.start || b.end <= a.start
  }

  /** The usable regions are page-aligned and do not overlap. */
  ghost predicate GoodMap(regions: seq<Region>) {
    && (forall i :: 0 <= i < |regions| && regions[i].usable ==> PageAligned(regions[i]))
    && (forall i, j :: 0 <= i < j < |regions| && regions[i].usable && regions[j].usable ==>
       Apart(regions[i], regions[j]))
  }

  lemma GoodTail(regions: seq<Region>)
    requires GoodMap(regions) && regions != []
    ensures GoodMap(regions[1..])
  {
  }

  lemma {:induction false} StepsClosedForm(start: nat, end: nat)
    requires start % PAGE == 0 && end % PAGE == 0 && start <= end
    ensures |Steps(start, end)| == (end - start) / PAGE
    ensures forall i :: 0 <= i < |Steps(start, end)| ==> Steps(start, end)[i] == start / PAGE + i
    decreases end - start
  {
    if start < end {
      StepsClosedForm(start + PAGE, end);
    }
  }

  /** The frame starts inside a usable region. */
  ghost predicate InUsable(regions: seq<Region>, frame: nat) {
    exists i :: 0 <= i < |regions| && regions[i].usable && regions[i].start <= frame * PAGE < regions[i].end
  }

  lemma StepsMembers(r: Region, frame: nat)
    requires PageAligned(r)
    ensures frame in Steps(r.start, r.end) <==> r.start <= frame * PAGE < r.end
  {
    StepsClosedForm(r.start, r.end);
    if r.start <= frame * PAGE < r.end {
      assert Steps(r.start, r.end)[frame - r.start / PAGE] == frame;
    }
  }

  /** Exactly the frames of usable memory are handed out. */
  /** The frames come in the order of the memory map, and ascending within a region. */
  lemma {:induction false} FramesComeInOrder(a: seq<Region>, b: seq<Region>)
    ensures UsableFrames(a + b) == UsableFrames(a) + UsableFrames(b)
  {
    hide Steps;
    if a == [] {
      assert a + b == b;
    } else {
      FramesComeInOrder(a[1..], b);
      assert (a + b)[1..] == a[1..] + b;
      var first := if a[0].usable then Steps(a[0].start, a[0].end) else [];
      assert UsableFrames(a + b) == first + UsableFrames(a[1..] + b);
      assert first + (UsableFrames(a[1..]) + UsableFrames(b)) == (first + UsableFrames(a[1..])) + UsableFrames(b);
    }
  }

  lemma FramesOfOneRegion(r: Region)
    requires r.usable ==> r.start % PAGE == 0 && r.end % PAGE == 0 && r.start <= r.end
    ensures var frames := UsableFrames([r]);
            && |frames| == (if r.usable then (r.end - r.start) / PAGE else 0)
            && forall i :: 0 <= i < |frames| ==> frames[i] == r.start / PAGE + i
  {
    assert [r][1..] == [];
    if r.usable { StepsClosedForm(r.start, r.end); }
  }

  lemma {:induction false} HandsOutExactlyUsable(regions: seq<Region>, frame: nat)
    requires GoodMap(regions)
    ensures frame in UsableFrames(regions) <==> InUsable(regions, frame)
  {
    if regions != [] {
      var r, rest := regions[0], regions[1..];
      GoodTail(regions);
      HandsOutExactlyUsable(rest, frame);
      if r.usable { StepsMembers(r, frame); }
      if InUsable(rest, frame) {
        var i :| 0 <= i < |rest| && rest[i].usable && rest[i].start <= frame * PAGE < rest[i].end;
        assert regions[i + 1] == rest[i];
      }
      if InUsable(regions, frame) {
        var i :| 0 <= i < |regions| && regions[i].usable && regions[i].start <= frame * PAGE < regions[i].end;
        if i > 0 { assert rest[i - 1] == regions[i]; }
      }
    }
  }

  /** No frame is handed out twice. */
  lemma {:induction false} NeverTwice(regions: seq<Region>, i: nat, j: nat)
    requires GoodMap(regions) && i < j < |UsableFrames(regions)|
    ensures UsableFrames(regions)[i] != UsableFrames(regions)[j]
  {
    var r, rest := regions[0], regions[1..];
    var own, others := if r.usable then Steps(r.start, r.end) else [], UsableFrames(rest);
    assert UsableFrames(regions) == own + others;
    GoodTail(regions);
    if r.usable { StepsClosedForm(r.start, r.end); }
    if i >= |own| {
      NeverTwice(rest, i - |own|, j - |own|);
    } else if j >= |own| {
      var f := others[j - |own|];
      HandsOutExactlyUsable(rest, f);
      StepsMembers(r, own[i]);
      var k :| 0 <= k < |rest| && rest[k].usable && rest[k].start <= f * PAGE < rest[k].end;
      assert Apart(regions[0], regions[k + 1]);
    }
  }

  function UsableBytes(regions: seq<Region>): int {
    if regions == [] then 0
    else (if regions[0].usable then regions[0].end - regions[0].start else 0) + UsableBytes(regions[1..])
  }

  /** All of usable memory is handed out, page by page; every later call gets None. */
  lemma {:induction false} HandsOutEveryPage(regions: seq<Region>)
    requires GoodMap(regions)
    ensures |UsableFrames(regions)| * PAGE == UsableBytes(regions)
  {
    if regions != [] {
      GoodTail(regions);
      HandsOutEveryPage(regions[1..]);
      if regions[0].usable { StepsClosedForm(regions[0].start, regions[0].end); }
    }
  }
}
