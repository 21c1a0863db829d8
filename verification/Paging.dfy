/** Four-level paging as src/memory.rs and src/process/mod.rs use it: the walk, the copy of the level 4
    table for a process, and the user bits of the parent entries.  Physical memory is a map from frame
    number to a table of 512 entries; memory not in the map reads as empty tables. */
module Paging {
  import opened Basics

  datatype Flag =
    | Present | Writable | UserAccessible | WriteThrough | NoCache | Accessed | Dirty | HugePage | Global | NoExecute
    | Available(bit: nat)

  datatype Entry = Entry(frame: nat, flags: set<Flag>)

  datatype FrameResult = Frame(frame: nat) | FrameNotPresent | HugeFrame

  const ENTRIES: nat := 512

  function Blank(n: nat): (r: seq<Entry>)
    ensures |r| == n
    ensures forall i :: 0 <= i < n ==> r[i] == Entry(0, {})
  {
    if n == 0 then [] else [Entry(0, {})] + Blank(n - 1)
  }

  type Table = t: seq<Entry> | |t| == ENTRIES witness Blank(ENTRIES)
  type Memory = map<nat, Table>

  type Index = i: nat | i < ENTRIES

  const EMPTY: Table := Blank(ENTRIES)

  function TableAt(mem: Memory, frame: nat): Table {
    if frame in mem then mem[frame] else EMPTY
  }

  /** `PageTableEntry::frame`. */
  function FrameOf(e: Entry): FrameResult {
    if Present !in e.flags then FrameNotPresent
    else if HugePage in e.flags then HugeFrame
    else Frame(e.frame)
  }

  function Indexes(addr: nat): seq<Index> {
    [addr / 0x80_0000_0000 % ENTRIES, addr / 0x4000_0000 % ENTRIES, addr / 0x20_0000 % ENTRIES, addr / PAGE % ENTRIES]
  }

  /** Follows one index per level; the code stops at a huge page with a panic. */
  function Walk(mem: Memory, frame: nat, path: seq<Index>): FrameResult
    decreases |path|
  {
    if path == [] then Frame(frame)
    else
      var next := FrameOf(TableAt(mem, frame)[path[0]]);
      if next.Frame? then Walk(mem, next.frame, path[1..]) else next
  }

  datatype Translation = Address(phys: nat) | NotMapped | Panic

  /** What the result of a walk says about `addr`. */
  function Located(result: FrameResult, addr: nat): Translation {
    match result
    case Frame(f) => Address(f * PAGE + addr % PAGE)
    case FrameNotPresent => NotMapped
    case HugeFrame => Panic
  }

  function Translate(mem: Memory, root: nat, addr: nat): Translation {
    Located(Walk(mem, root, Indexes(addr)), addr)
  }

  /** `translate_addr_inner`, with the level 4 frame that CR3 holds as a parameter. */
  method TranslateAddr(mem: Memory, root: nat, addr: nat) returns (t: Translation)
    ensures t == Translate(mem, root, addr)
  {
    var indexes := Indexes(addr);
    var frame: nat := root;
    var level := 0;
    while level < |indexes|
      invariant level <= |indexes|
      invariant Walk(mem, frame, indexes[level..]) == Walk(mem, root, indexes)
      decreases |indexes| - level
    {
      var entry := TableAt(mem, frame)[indexes[level]];
      assert indexes[level..][1..] == indexes[level + 1..];
      match FrameOf(entry) {
        case Frame(f) => frame := f;
        case FrameNotPresent => return NotMapped;
        case HugeFrame => return Panic;
      }
      level := level + 1;
    }
    t := Address(frame * PAGE + addr % PAGE);
  }

  // ----- what a translation means

  /** `frames` starts at `frame` and follows present, non-huge entries along `path`. */
  ghost predicate Chain(mem: Memory, frames: seq<nat>, path: seq<Index>) {
    && |frames| == |path| + 1
    && forall k :: 0 <= k < |path| ==> FrameOf(TableAt(mem, frames[k])[path[k]]) == Frame(frames[k + 1])
  }

  lemma {:induction false} WalkIsChain(mem: Memory, frames: seq<nat>, path: seq<Index>)
    requires Chain(mem, frames, path)
    ensures Walk(mem, frames[0], path) == Frame(frames[|path|])
    decreases |path|
  {
    if path != [] {
      forall k | 0 <= k < |path[1..]|
        ensures FrameOf(TableAt(mem, frames[1..][k])[path[1..][k]]) == Frame(frames[1..][k + 1])
      {
        assert FrameOf(TableAt(mem, frames[k + 1])[path[k + 1]]) == Frame(frames[k + 2]);
      }
      WalkIsChain(mem, frames[1..], path[1..]);
      assert FrameOf(TableAt(mem, frames[0])[path[0]]) == Frame(frames[1]);
    }
  }

  lemma {:induction false} ChainOfWalk(mem: Memory, frame: nat, path: seq<Index>) returns (frames: seq<nat>)
    requires Walk(mem, frame, path).Frame?
    ensures Chain(mem, frames, path) && frames[0] == frame && frames[|path|] == Walk(mem, frame, path).frame
    decreases |path|
  {
    if path == [] {
      frames := [frame];
    } else {
      var next := FrameOf(TableAt(mem, frame)[path[0]]).frame;
      var rest := ChainOfWalk(mem, next, path[1..]);
      frames := [frame] + rest;
      forall k | 0 <= k < |path| ensures FrameOf(TableAt(mem, frames[k])[path[k]]) == Frame(frames[k + 1]) {
        if k > 0 { assert FrameOf(TableAt(mem, rest[k - 1])[path[1..][k - 1]]) == Frame(rest[k]); }
      }
    }
  }

  /** An address translates exactly when four present, non-huge entries lead from the root to its frame. */
  lemma TranslatesIffChain(mem: Memory, root: nat, addr: nat, phys: nat)
    ensures Translate(mem, root, addr) == Address(phys) <==>
            exists frames :: Chain(mem, frames, Indexes(addr)) && frames[0] == root &&
                phys == frames[4] * PAGE + addr % PAGE
  {
    var path := Indexes(addr);
    if Translate(mem, root, addr) == Address(phys) {
      var frames := ChainOfWalk(mem, root, path);
      assert Chain(mem, frames, path) && frames[0] == root && phys == frames[4] * PAGE + addr % PAGE;
    }
    if frames :| Chain(mem, frames, path) && frames[0] == root && phys == frames[4] * PAGE + addr % PAGE {
      WalkIsChain(mem, frames, path);
    }
  }

  // ----- what the indexes of an address are

  /** The address with the given index at each level, level 4 first, and the given offset in its page. */
  function Compose(l4: Index, l3: Index, l2: Index, l1: Index, offset: nat): nat {
    l4 * 0x80_0000_0000 + l3 * 0x4000_0000 + l2 * 0x20_0000 + l1 * PAGE + offset
  }

  lemma DivideTwice(x: nat, d: nat)
    requires d == PAGE || d == 0x20_0000 || d == 0x4000_0000
    ensures x / d / ENTRIES == x / (d * ENTRIES)
  {
  }

  /** The four indexes and the offset are the digits of the low 48 bits of an address. */
  lemma IndexesCompose(addr: nat)
    ensures var i := Indexes(addr);
            Compose(i[0], i[1], i[2], i[3], addr % PAGE) == addr % 0x1_0000_0000_0000
  {
    IndexesOfPage(addr);
    hide Indexes;
    var p1 := addr / PAGE;
    var p2 := p1 / ENTRIES;
    var p3 := p2 / ENTRIES;
    var p4 := p3 / ENTRIES;
    DigitsAddUp(addr, p1, p2, p3, p4, p4 / ENTRIES);
  }

  lemma DigitsAddUp(addr: nat, p1: nat, p2: nat, p3: nat, p4: nat, p5: nat)
    requires p1 == addr / PAGE && p2 == p1 / ENTRIES && p3 == p2 / ENTRIES && p4 == p3 / ENTRIES && p5 == p4 / ENTRIES
    ensures Compose(p4 % ENTRIES, p3 % ENTRIES, p2 % ENTRIES, p1 % ENTRIES, addr % PAGE) == addr % 0x1_0000_0000_0000
  {
    assert addr == p1 * 4096 + addr % PAGE;
    assert p1 == p2 * 512 + p1 % ENTRIES;
    assert p2 == p3 * 512 + p2 % ENTRIES;
    assert p3 == p4 * 512 + p3 % ENTRIES;
    assert p4 == p5 * 512 + p4 % ENTRIES;
    var low := Compose(p4 % ENTRIES, p3 % ENTRIES, p2 % ENTRIES, p1 % ENTRIES, addr % PAGE);
    assert addr == p5 * 0x1_0000_0000_0000 + low && low < 0x1_0000_0000_0000;
  }

  lemma IndexesOfComposed(l4: Index, l3: Index, l2: Index, l1: Index, offset: nat)
    requires offset < PAGE
    ensures var addr := Compose(l4, l3, l2, l1, offset);
            Indexes(addr) == [l4, l3, l2, l1] && addr % PAGE == offset && addr < 0x1_0000_0000_0000
  {
    hide Indexes, Compose;
    var p3, p2, p1 := ComposeNested(l4, l3, l2, l1, offset);
    IndexesOfPage(Compose(l4, l3, l2, l1, offset));
  }

  /** The composed address, one digit at a time. */
  lemma ComposeNested(l4: Index, l3: Index, l2: Index, l1: Index, offset: nat) returns (p3: nat, p2: nat, p1: nat)
    requires offset < PAGE
    ensures var addr := Compose(l4, l3, l2, l1, offset);
            && addr / PAGE == p1 && addr % PAGE == offset && addr < 0x1_0000_0000_0000
            && p1 / ENTRIES == p2 && p1 % ENTRIES == l1
            && p2 / ENTRIES == p3 && p2 % ENTRIES == l2
            && p3 / ENTRIES == l4 && p3 % ENTRIES == l3 && l4 % ENTRIES == l4
  {
    p3 := l4 * 512 + l3;
    p2 := p3 * 512 + l2;
    p1 := p2 * 512 + l1;
    assert Compose(l4, l3, l2, l1, offset) == p1 * 4096 + offset;
  }

  /** The path depends on the page alone. */
  lemma IndexesOfPage(addr: nat)
    ensures var page := addr / PAGE;
            Indexes(addr) == [page / ENTRIES / ENTRIES / ENTRIES % ENTRIES, page / ENTRIES / ENTRIES % ENTRIES,
                              page / ENTRIES % ENTRIES, page % ENTRIES]
  {
    DivideTwice(addr, PAGE);
    DivideTwice(addr, 0x20_0000);
    DivideTwice(addr, 0x4000_0000);
  }

  /** Addresses in different pages have different paths, and those in one page the same. */
  lemma PagesHavePaths(a: nat, b: nat)
    requires a < 0x1_0000_0000_0000 && b < 0x1_0000_0000_0000
    ensures Indexes(a) == Indexes(b) <==> a / PAGE == b / PAGE
  {
    hide Indexes;
    if a / PAGE == b / PAGE {
      IndexesOfPage(a);
      IndexesOfPage(b);
    }
    if Indexes(a) == Indexes(b) {
      IndexesCompose(a);
      IndexesCompose(b);
    }
  }

  /** The entry at index `i` of table `frame` is present, no huge page, and holds `target`. */
  predicate Leads(mem: Memory, frame: nat, i: Index, target: nat) {
    frame in mem && Present in mem[frame][i].flags && HugePage !in mem[frame][i].flags && mem[frame][i].frame == target
  }

  /** Translation, level by level: the address with indexes l4, l3, l2, l1 maps to the frame that the four
      entries lead to, at the same offset, and to nothing else. */
  lemma TranslatesByLevels(mem: Memory, root: nat, l4: Index, l3: Index, l2: Index, l1: Index, offset: nat, phys: nat)
    requires offset < PAGE
    ensures Translate(mem, root, Compose(l4, l3, l2, l1, offset)) == Address(phys) <==>
            exists f3: nat, f2: nat, f1: nat, page: nat ::
              && Leads(mem, root, l4, f3) && Leads(mem, f3, l3, f2) && Leads(mem, f2, l2, f1) &&
                 Leads(mem, f1, l1, page)
              && phys == page * PAGE + offset
  {
    IndexesOfComposed(l4, l3, l2, l1, offset);
    FourLevels(mem, root, l4, l3, l2, l1);
    hide Walk, Indexes, Compose;
    var path := [l4, l3, l2, l1];
    if Walk(mem, root, path).Frame? {
      var page := Walk(mem, root, path).frame;
      if phys == page * PAGE + offset {
        var f3: nat, f2: nat, f1: nat :|
          Leads(mem, root, l4, f3) && Leads(mem, f3, l3, f2) && Leads(mem, f2, l2, f1) && Leads(mem, f1, l1, page);
      }
    }
  }

  lemma FourLevels(mem: Memory, root: nat, l4: Index, l3: Index, l2: Index, l1: Index)
    ensures var w := Walk(mem, root, [l4, l3, l2, l1]);
            && (w.Frame? ==> exists f3: nat, f2: nat, f1: nat ::
                  && Leads(mem, root, l4, f3) && Leads(mem, f3, l3, f2) && Leads(mem, f2, l2, f1)
                  && Leads(mem, f1, l1, w.frame))
            && forall f3: nat, f2: nat, f1: nat, page: nat ::
                 Leads(mem, root, l4, f3) && Leads(mem, f3, l3, f2) && Leads(mem, f2, l2, f1) &&
                     Leads(mem, f1, l1, page)
                 ==> w == Frame(page)
  {
    var path := [l4, l3, l2, l1];
    if Walk(mem, root, path).Frame? {
      var frames := ChainOfWalk(mem, root, path);
      LinkLeads(mem, frames, path, 0);
      LinkLeads(mem, frames, path, 1);
      LinkLeads(mem, frames, path, 2);
      LinkLeads(mem, frames, path, 3);
    }
    forall f3: nat, f2: nat, f1: nat, page: nat |
      && Leads(mem, root, l4, f3) && Leads(mem, f3, l3, f2) && Leads(mem, f2, l2, f1) && Leads(mem, f1, l1, page)
      ensures Walk(mem, root, path) == Frame(page)
    {
      var frames := [root, f3, f2, f1, page];
      assert Chain(mem, frames, path);
      WalkIsChain(mem, frames, path);
    }
  }

  lemma LinkLeads(mem: Memory, frames: seq<nat>, path: seq<Index>, k: nat)
    requires Chain(mem, frames, path) && k < |path|
    ensures Leads(mem, frames[k], path[k], frames[k + 1])
  {
    assert FrameOf(TableAt(mem, frames[k])[path[k]]) == Frame(frames[k + 1]);
  }

  // ----- a process's own level 4 table

  function CopyRoot(mem: Memory, root: nat, newRoot: nat): Memory {
    mem[newRoot := TableAt(mem, root)]
  }

  /** No entry of another table leads to `frame`, as for a frame just taken from the frame allocator. */
  ghost predicate Unreferenced(mem: Memory, frame: nat) {
    forall f, i: Index :: f != frame ==> FrameOf(TableAt(mem, f)[i]) != Frame(frame)
  }

  /** Memory that differs only in a table no walk can reach translates the same. */
  lemma {:induction false} WalkAvoids(mem: Memory, mem': Memory, frame: nat, path: seq<Index>, hidden: nat)
    requires Unreferenced(mem, hidden) && frame != hidden
    requires forall f :: f != hidden ==> TableAt(mem', f) == TableAt(mem, f)
    ensures Walk(mem', frame, path) == Walk(mem, frame, path)
    decreases |path|
  {
    if path != [] {
      var next := FrameOf(TableAt(mem, frame)[path[0]]);
      if next.Frame? {
        WalkAvoids(mem, mem', next.frame, path[1..], hidden);
      }
    }
  }

  /** Roots with the same entries translate every address alike, whatever the lower tables hold. */
  lemma SameRootsAgree(mem: Memory, a: nat, b: nat, addr: nat)
    requires TableAt(mem, a) == TableAt(mem, b)
    ensures Translate(mem, a, addr) == Translate(mem, b, addr)
  {
  }

  /** The copied root translates every address exactly as the old root did, and the old root still does. */
  lemma CopyTranslatesAlike(mem: Memory, root: nat, newRoot: nat, addr: nat)
    requires Unreferenced(mem, newRoot) && newRoot != root
    ensures var copied := CopyRoot(mem, root, newRoot);
            Translate(copied, newRoot, addr) == Translate(copied, root, addr) == Translate(mem, root, addr)
  {
    var copied := CopyRoot(mem, root, newRoot);
    WalkAvoids(mem, copied, root, Indexes(addr), newRoot);
    SameRootsAgree(copied, newRoot, root, addr);
  }

  datatype Write = Write(frame: nat, index: Index, entry: Entry)

  function ApplyWrites(mem: Memory, writes: seq<Write>): Memory
    decreases |writes|
  {
    if writes == [] then mem
    else
      var w := writes[0];
      ApplyWrites(mem[w.frame := TableAt(mem, w.frame)[w.index := w.entry]], writes[1..])
  }

  /** The kernel's and the process's address spaces stay equal through any later changes to the lower
      tables they share, as long as neither level 4 table is written. */
  lemma {:induction false} CopiesKeepAgreeing(mem: Memory, a: nat, b: nat, writes: seq<Write>, addr: nat)
    requires TableAt(mem, a) == TableAt(mem, b)
    requires forall i :: 0 <= i < |writes| ==> writes[i].frame != a && writes[i].frame != b
    ensures var later := ApplyWrites(mem, writes);
            Translate(later, a, addr) == Translate(later, b, addr)
    decreases |writes|
  {
    if writes == [] {
      SameRootsAgree(mem, a, b, addr);
    } else {
      var w := writes[0];
      CopiesKeepAgreeing(mem[w.frame := TableAt(mem, w.frame)[w.index := w.entry]], a, b, writes[1..], addr);
    }
  }

  /** Where a walk goes from an entry. */
  function Below(mem: Memory, e: Entry, path: seq<Index>): FrameResult {
    var next := FrameOf(e);
    if next.Frame? then Walk(mem, next.frame, path) else next
  }

  /** A level 4 entry written to one root alone separates the two address spaces exactly where the new
      entry leads somewhere else than the old one. */
  lemma RootWriteSeparates(mem: Memory, a: nat, b: nat, i: Index, e: Entry, addr: nat)
    requires TableAt(mem, a) == TableAt(mem, b) && a != b
    ensures var later, path := mem[a := TableAt(mem, a)[i := e]], Indexes(addr);
            Translate(later, a, addr) == Translate(later, b, addr) <==>
            path[0] != i || Below(later, e, path[1..]) == Below(later, TableAt(mem, b)[i], path[1..])
  {
  }

  /** If no table leads back to the written root, the same is decided by the memory before the write. */
  lemma RootWriteSeparatesIff(mem: Memory, a: nat, b: nat, i: Index, e: Entry, addr: nat)
    requires TableAt(mem, a) == TableAt(mem, b) && a != b
    requires Unreferenced(mem, a) && FrameOf(TableAt(mem, a)[i]) != Frame(a) && FrameOf(e) != Frame(a)
    ensures var later, path := mem[a := TableAt(mem, a)[i := e]], Indexes(addr);
            Translate(later, a, addr) == Translate(later, b, addr) <==>
            path[0] != i || Below(mem, e, path[1..]) == Below(mem, TableAt(mem, a)[i], path[1..])
  {
    var later, path := mem[a := TableAt(mem, a)[i := e]], Indexes(addr);
    RootWriteSeparates(mem, a, b, i, e, addr);
    BelowAvoids(mem, later, e, path[1..], a);
    BelowAvoids(mem, later, TableAt(mem, a)[i], path[1..], a);
  }

  lemma BelowAvoids(mem: Memory, later: Memory, e: Entry, path: seq<Index>, hidden: nat)
    requires Unreferenced(mem, hidden) && FrameOf(e) != Frame(hidden)
    requires forall f :: f != hidden ==> TableAt(later, f) == TableAt(mem, f)
    ensures Below(later, e, path) == Below(mem, e, path)
  {
    if FrameOf(e).Frame? { WalkAvoids(mem, later, FrameOf(e).frame, path, hidden); }
  }

  /** An entry written where both roots had none: the other root maps nothing there, and the written root
      maps what the tables below the new entry, as they are before the write, lead to. */
  lemma NewRootEntryIsUnseen(mem: Memory, a: nat, b: nat, i: Index, e: Entry, addr: nat)
    requires TableAt(mem, a) == TableAt(mem, b) && a != b && Indexes(addr)[0] == i
    requires Unreferenced(mem, a) && FrameOf(TableAt(mem, a)[i]).FrameNotPresent? && FrameOf(e) != Frame(a)
    ensures var later := mem[a := TableAt(mem, a)[i := e]];
            && Translate(later, b, addr) == NotMapped
            && Translate(later, a, addr) == Located(Below(mem, e, Indexes(addr)[1..]), addr)
  {
    BelowAvoids(mem, mem[a := TableAt(mem, a)[i := e]], e, Indexes(addr)[1..], a);
  }

  // ----- an address that separates two roots

  function Link(frame: nat): Table {
    EMPTY[0 := Entry(frame, {Present})]
  }

  /** Tables 3, 4 and 5 map page 6 below a level 4 entry; roots 1 and 2 are empty. */
  const SEPARABLE: Memory := map[3 := Link(4), 4 := Link(5), 5 := Link(6)]

  /** Writing that entry to root 1 maps address 0 there and leaves it unmapped under root 2. */
  lemma AddressZeroSeparates()
    ensures var later := SEPARABLE[1 := Link(3)];
            && TableAt(SEPARABLE, 1) == TableAt(SEPARABLE, 2)
            && later[1] == TableAt(SEPARABLE, 1)[0 := Entry(3, {Present})]
            && Translate(later, 1, 0) == Address(6 * PAGE) && Translate(later, 2, 0) == NotMapped
  {
    var later := SEPARABLE[1 := Link(3)];
    var frames := [1, 3, 4, 5, 6];
    assert Indexes(0) == [0, 0, 0, 0];
    assert Chain(later, frames, Indexes(0));
    WalkIsChain(later, frames, Indexes(0));
  }

  // ----- user bits along a path

  function WithUser(e: Entry): Entry {
    e.(flags := e.flags + {UserAccessible})
  }

  function MarkUser(mem: Memory, frame: nat, i: Index): Memory {
    mem[frame := TableAt(mem, frame)[i := WithUser(TableAt(mem, frame)[i])]]
  }

  /** Marks the entries of a path one level at a time; `false` is the panic of `unwrap` on an entry that
      leads nowhere, which is marked too. */
  function SetUserBits(mem: Memory, frame: nat, path: seq<Index>): (Memory, bool)
    decreases |path|
  {
    if path == [] then (mem, true)
    else
      var marked := MarkUser(mem, frame, path[0]);
      var next := FrameOf(TableAt(marked, frame)[path[0]]);
      if next.Frame? then SetUserBits(marked, next.frame, path[1..]) else (marked, false)
  }

  /** Some entries have gained the user flag; nothing else differs. */
  ghost predicate OnlyUserAdded(mem: Memory, mem': Memory) {
    forall f, i: Index :: AtMostUser(TableAt(mem, f)[i], TableAt(mem', f)[i])
  }

  predicate AtMostUser(e: Entry, e': Entry) {
    e'.frame == e.frame && e.flags <= e'.flags <= e.flags + {UserAccessible}
  }

  lemma MarkAddsUser(mem: Memory, frame: nat, i: Index)
    ensures OnlyUserAdded(mem, MarkUser(mem, frame, i))
  {
  }

  lemma OnlyUserAddedTrans(a: Memory, b: Memory, c: Memory)
    requires OnlyUserAdded(a, b) && OnlyUserAdded(b, c)
    ensures OnlyUserAdded(a, c)
  {
  }

  lemma {:induction false} SetUserBitsAddsUser(mem: Memory, frame: nat, path: seq<Index>)
    ensures OnlyUserAdded(mem, SetUserBits(mem, frame, path).0)
    decreases |path|
  {
    if path != [] {
      var marked := MarkUser(mem, frame, path[0]);
      MarkAddsUser(mem, frame, path[0]);
      var next := FrameOf(TableAt(marked, frame)[path[0]]);
      if next.Frame? {
        SetUserBitsAddsUser(marked, next.frame, path[1..]);
        OnlyUserAddedTrans(mem, marked, SetUserBits(mem, frame, path).0);
      }
    }
  }

  /** Flags that the walk does not read cannot change where it ends. */
  lemma {:induction false} UserBitsKeepWalks(mem: Memory, mem': Memory, frame: nat, path: seq<Index>)
    requires OnlyUserAdded(mem, mem')
    ensures Walk(mem', frame, path) == Walk(mem, frame, path)
    decreases |path|
  {
    if path != [] {
      assert AtMostUser(TableAt(mem, frame)[path[0]], TableAt(mem', frame)[path[0]]);
      var next := FrameOf(TableAt(mem, frame)[path[0]]);
      if next.Frame? {
        UserBitsKeepWalks(mem, mem', next.frame, path[1..]);
      }
    }
  }

  /** Every entry met along the path is usable and open to user mode. */
  ghost predicate UserPath(mem: Memory, frame: nat, path: seq<Index>)
    decreases |path|
  {
    path == [] || (
      var e := TableAt(mem, frame)[path[0]];
      UserAccessible in e.flags && FrameOf(e).Frame? && UserPath(mem, FrameOf(e).frame, path[1..]))
  }

  lemma {:induction false} UserPathGrows(mem: Memory, mem': Memory, frame: nat, path: seq<Index>)
    requires OnlyUserAdded(mem, mem') && UserPath(mem, frame, path)
    ensures UserPath(mem', frame, path)
    decreases |path|
  {
    if path != [] {
      var e, e' := TableAt(mem, frame)[path[0]], TableAt(mem', frame)[path[0]];
      assert AtMostUser(e, e');
      UserPathGrows(mem, mem', FrameOf(e).frame, path[1..]);
    }
  }

  /** Marking succeeds exactly when the path is present and not huge, and then opens all of it, even if
      the tables along the path are the same frame. */
  lemma {:induction false} SetUserBitsOpensPath(mem: Memory, frame: nat, path: seq<Index>)
    ensures SetUserBits(mem, frame, path).1 <==> Walk(mem, frame, path).Frame?
    ensures SetUserBits(mem, frame, path).1 ==> UserPath(SetUserBits(mem, frame, path).0, frame, path)
    decreases |path|
  {
    if path != [] {
      var marked := MarkUser(mem, frame, path[0]);
      MarkAddsUser(mem, frame, path[0]);
      var e := TableAt(marked, frame)[path[0]];
      UserBitsKeepWalks(mem, marked, frame, path);
      if FrameOf(e).Frame? {
        SetUserBitsOpensPath(marked, FrameOf(e).frame, path[1..]);
        SetUserBitsAddsUser(marked, FrameOf(e).frame, path[1..]);
        var final := SetUserBits(mem, frame, path).0;
        assert AtMostUser(e, TableAt(final, frame)[path[0]]);
      }
    }
  }

  /** Whether marking succeeds or panics on the way, every entry it meets is marked, the one it panics on
      included. */
  lemma {:induction false} EveryEntryMetIsMarked(mem: Memory, frame: nat, path: seq<Index>, n: nat)
    requires n < |path| && Walk(mem, frame, path[..n]).Frame?
    ensures var mem' := SetUserBits(mem, frame, path).0;
            UserAccessible in TableAt(mem', Walk(mem, frame, path[..n]).frame)[path[n]].flags
    decreases |path|
  {
    var marked := MarkUser(mem, frame, path[0]);
    var e := TableAt(marked, frame)[path[0]];
    var mem' := SetUserBits(mem, frame, path).0;
    MarkAddsUser(mem, frame, path[0]);
    assert AtMostUser(TableAt(mem, frame)[path[0]], e);
    if n == 0 {
      assert path[..0] == [];
      if FrameOf(e).Frame? {
        SetUserBitsAddsUser(marked, FrameOf(e).frame, path[1..]);
        assert AtMostUser(e, TableAt(mem', frame)[path[0]]);
      }
    } else {
      assert path[..n][0] == path[0] && path[..n][1..] == path[1..][..n - 1];
      UserBitsKeepWalks(mem, marked, FrameOf(e).frame, path[1..][..n - 1]);
      EveryEntryMetIsMarked(marked, FrameOf(e).frame, path[1..], n - 1);
    }
  }

  lemma {:induction false} UserPathAppend(mem: Memory, frame: nat, path: seq<Index>, last: Index)
    requires UserPath(mem, frame, path) && Walk(mem, frame, path).Frame?
    requires UserPath(mem, Walk(mem, frame, path).frame, [last])
    ensures UserPath(mem, frame, path + [last])
    decreases |path|
  {
    if path != [] {
      var e := TableAt(mem, frame)[path[0]];
      UserPathAppend(mem, FrameOf(e).frame, path[1..], last);
      assert (path + [last])[1..] == path[1..] + [last];
    } else {
      assert path + [last] == [last];
    }
  }

  /** Marking a path leaves every translation from every root as it was, and clears no flag. */
  lemma SetUserBitsKeepsTranslations(mem: Memory, frame: nat, path: seq<Index>, root: nat, addr: nat)
    ensures var mem' := SetUserBits(mem, frame, path).0;
            && Translate(mem', root, addr) == Translate(mem, root, addr)
            && forall f, i: Index :: TableAt(mem, f)[i].flags <= TableAt(mem', f)[i].flags
  {
    var mem' := SetUserBits(mem, frame, path).0;
    SetUserBitsAddsUser(mem, frame, path);
    UserBitsKeepWalks(mem, mem', root, Indexes(addr));
    forall f, i: Index ensures TableAt(mem, f)[i].flags <= TableAt(mem', f)[i].flags {
      assert AtMostUser(TableAt(mem, f)[i], TableAt(mem', f)[i]);
    }
  }

  /** Once the page itself is mapped for user mode, marking its parents succeeds and makes the page
      reachable from user mode at all four levels. */
  lemma MappedPageBecomesUserAccessible(mem: Memory, root: nat, addr: nat)
    requires Walk(mem, root, Indexes(addr)[..3]).Frame?
    requires var leaf := TableAt(mem, Walk(mem, root, Indexes(addr)[..3]).frame)[Indexes(addr)[3]];
             FrameOf(leaf).Frame? && UserAccessible in leaf.flags
    ensures var (mem', ok) := SetUserBits(mem, root, Indexes(addr)[..3]);
            ok && UserPath(mem', root, Indexes(addr))
  {
    var parents, last := Indexes(addr)[..3], Indexes(addr)[3];
    assert Indexes(addr) == parents + [last];
    hide Indexes;
    var mem' := SetUserBits(mem, root, parents).0;
    SetUserBitsOpensPath(mem, root, parents);
    SetUserBitsAddsUser(mem, root, parents);
    UserBitsKeepWalks(mem, mem', root, parents);
    var f := Walk(mem, root, parents).frame;
    assert AtMostUser(TableAt(mem, f)[last], TableAt(mem', f)[last]);
    UserPathAppend(mem', root, parents, last);
  }

  /** Marking, level by level: the three parent entries of the address get the user flag, and no other entry
      changes. */
  lemma MarksThreeLevels(mem: Memory, root: nat, l4: Index, l3: Index, l2: Index, l1: Index, offset: nat,
                         f3: nat, f2: nat, f1: nat)
    requires offset < PAGE && Leads(mem, root, l4, f3) && Leads(mem, f3, l3, f2) && Leads(mem, f2, l2, f1)
    ensures var (mem', ok) := SetUserBits(mem, root, Indexes(Compose(l4, l3, l2, l1, offset))[..3]);
            && ok
            && forall f: nat, i: Index ::
                 TableAt(mem', f)[i] ==
                 if (f, i) in {(root, l4), (f3, l3), (f2, l2)}
                 then TableAt(mem, f)[i].(flags := TableAt(mem, f)[i].flags + {UserAccessible})
                 else TableAt(mem, f)[i]
  {
    IndexesOfComposed(l4, l3, l2, l1, offset);
    hide Indexes, Compose;
    assert [l4, l3, l2, l1][..3] == [l4, l3, l2];
    ThreeMarks(mem, root, l4, l3, l2, f3, f2, f1);
  }

  lemma ThreeMarks(mem: Memory, root: nat, l4: Index, l3: Index, l2: Index, f3: nat, f2: nat, f1: nat)
    requires Leads(mem, root, l4, f3) && Leads(mem, f3, l3, f2) && Leads(mem, f2, l2, f1)
    ensures SetUserBits(mem, root, [l4, l3, l2]) ==
            (MarkUser(MarkUser(MarkUser(mem, root, l4), f3, l3), f2, l2), true)
  {
    var m1 := MarkUser(mem, root, l4);
    var m2 := MarkUser(m1, f3, l3);
    assert [l4, l3, l2][1..] == [l3, l2] && [l3, l2][1..] == [l2] && [l2][1..] == [];
    assert SetUserBits(m2, f2, [l2]) == (MarkUser(m2, f2, l2), true);
    assert SetUserBits(m1, f3, [l3, l2]) == SetUserBits(m2, f2, [l2]);
  }

  // ----- the in-place forms

  class PhysicalMemory {
    var tables: Memory

    constructor (tables: Memory)
      ensures this.tables == tables
    {
      this.tables := tables;
    }

    /** The copy loop of create_process_page_table_with_user_mappings, entry by entry. */
    method CopyLevel4(root: nat, newRoot: nat)
      modifies this
      ensures tables == CopyRoot(old(tables), root, newRoot)
    {
      ghost var source := TableAt(tables, root);
      var i := 0;
      if newRoot !in tables {
        tables := tables[newRoot := TableAt(tables, newRoot)];
      }
      while i < ENTRIES
        invariant i <= ENTRIES
        invariant newRoot in tables && TableAt(tables, root) == source
        invariant tables == old(tables)[newRoot := tables[newRoot]]
        invariant forall k :: 0 <= k < i ==> tables[newRoot][k] == source[k]
      {
        tables := tables[newRoot := tables[newRoot][i := TableAt(tables, root)[i]]];
        i := i + 1;
      }
      assert tables[newRoot] == source;
    }

    /** `set_user_bit_for_parents`: false where the code panics. */
    method SetUserBitForParents(root: nat, addr: nat) returns (ok: bool)
      modifies this
      ensures (tables, ok) == SetUserBits(old(tables), root, Indexes(addr)[..3])
    {
      var indexes := Indexes(addr)[..3];
      var table := root;
      var level := 0;
      while level < |indexes|
        invariant level <= |indexes|
        invariant SetUserBits(tables, table, indexes[level..]) == SetUserBits(old(tables), root, indexes)
        decreases |indexes| - level
      {
        var entry := WithUser(TableAt(tables, table)[indexes[level]]);
        ghost var before := tables;
        tables := tables[table := TableAt(tables, table)[indexes[level] := entry]];
        assert tables == MarkUser(before, table, indexes[level]);
        assert TableAt(tables, table)[indexes[level]] == entry;
        assert indexes[level..][1..] == indexes[level + 1..];
        match FrameOf(entry) {
          case Frame(f) => table := f;
          case _ => return false;
        }
        level := level + 1;
      }
      ok := true;
    }
  }
}
