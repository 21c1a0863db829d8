/** A frame from the boot allocator is safe to build a process's root table in. */
module AddressSpaces {
  import opened Basics
  import opened FrameAllocator
  import Paging

  /** Every table entry leads to a frame handed out by the first `calls` allocations, or outside usable memory. */
  ghost predicate OnlyAllocated(mem: Paging.Memory, regions: seq<Region>, calls: nat) {
    forall f, i: Paging.Index ::
      var target := Paging.FrameOf(Paging.TableAt(mem, f)[i]);
      target.Frame? ==>
        || !InUsable(regions, target.frame)
        || target.frame in UsableFrames(regions)[..Min(calls, |UsableFrames(regions)|)]
  }

  /** The next frame is not referenced by any table. */
  lemma NextFrameIsUnreferenced(mem: Paging.Memory, regions: seq<Region>, calls: nat)
    requires GoodMap(regions) && calls < |UsableFrames(regions)| && OnlyAllocated(mem, regions, calls)
    ensures Paging.Unreferenced(mem, UsableFrames(regions)[calls])
  {
    var frames := UsableFrames(regions);
    var next := frames[calls];
    HandsOutExactlyUsable(regions, next);
    forall f, i: Paging.Index | f != next ensures Paging.FrameOf(Paging.TableAt(mem, f)[i]) != Paging.Frame(next) {
      if Paging.FrameOf(Paging.TableAt(mem, f)[i]) == Paging.Frame(next) {
        var j :| 0 <= j < calls && frames[..calls][j] == next;
        NeverTwice(regions, j, calls);
        assert false;
      }
    }
  }

  /** A new process, whose root is built in the next frame, sees every address as the kernel does. */
  lemma NewProcessSharesAddressSpace(mem: Paging.Memory, regions: seq<Region>, calls: nat, root: nat, addr: nat)
    requires GoodMap(regions) && calls < |UsableFrames(regions)| && OnlyAllocated(mem, regions, calls)
    requires root in UsableFrames(regions)[..calls] || !InUsable(regions, root)
    ensures var newRoot := UsableFrames(regions)[calls];
            Paging.Translate(Paging.CopyRoot(mem, root, newRoot), newRoot, addr) == Paging.Translate(mem, root, addr)
  {
    var frames := UsableFrames(regions);
    NextFrameIsUnreferenced(mem, regions, calls);
    HandsOutExactlyUsable(regions, frames[calls]);
    if root in frames[..calls] {
      var j :| 0 <= j < calls && frames[..calls][j] == root;
      NeverTwice(regions, j, calls);
    }
    Paging.CopyTranslatesAlike(mem, root, frames[calls], addr);
  }
}
