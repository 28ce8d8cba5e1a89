/**
 The boot half of mm/pmap.c in place: the bump allocator, boot_pgdir_walk,
 boot_map_segment and aarch64_vm_init, with the translation they produce.
 */
module BootMap {
  import opened Bits
  import opened Mmu
  import opened Memory
  import opened Attributes
  import opened BootTree

  const MAX_PAGES: nat := 0x4_0000       // 1GB of physical memory

  const UPAGES: nat := 0x5000_0000
  const UENVS: nat := 0x5100_0000
  const TIMESTACK: nat := 0x5200_0000
  const KERNEL_SP: nat := 0x51ff_f000
  const SIZEOF_PAGE: nat := 24           // two links and a padded unsigned short
  const SIZEOF_ENV: nat := 416
  const NENVS: nat := 1024
  const PAGES_PAGES: nat := 1536         // pages of the array pages[]
  const ENVS_PAGES: nat := 104           // pages of the array envs[]

  /** The four windows do not meet. */
  lemma WindowsDisjoint()
    ensures MAX_PAGES * SIZEOF_PAGE == PAGES_PAGES * BY2PG && NENVS * SIZEOF_ENV == ENVS_PAGES * BY2PG
    ensures UPAGES + PAGES_PAGES * BY2PG <= UENVS && UENVS + ENVS_PAGES * BY2PG <= KERNEL_SP - BY2PG
    ensures KERNEL_SP == TIMESTACK - BY2PG
  {
  }

  /** Address va lies in the first n pages of the segment that starts at `start`. */
  predicate InPages(va: nat, start: nat, n: nat)
  {
    start <= va < start + n * 4096
  }

  /** The first n pages of [start, ...) are mapped to pa, ... with attribute bits attrs; every other address translates as before. */
  ghost predicate SegmentMapped(frames: seq<Frame>, frames': seq<Frame>, root: nat, start: nat, n: nat, pa: nat, attrs: nat)
  {
    forall va: nat {:trigger Translate(frames', root, va)} ::
      Translate(frames', root, va) ==
      if InPages(va, start, n) then Mapped(pa + (va - start), attrs) else Translate(frames, root, va)
  }

  ghost predicate Cleared(frames: seq<Frame>, frames': seq<Frame>, first: nat, n: nat)
  {
    && |frames'| == |frames|
    && forall f {:trigger frames'[f]} :: 0 <= f < |frames| ==> frames'[f] == if first <= f < first + n then ZeroFrame() else frames[f]
  }

  /** How many second-level slots the pages [p, p + n) fall into. */
  function Spans(p: nat, n: nat): nat
  {
    if n == 0 then 0 else (p + n - 1) / 512 - p / 512 + 1
  }

  /** Page number k of the segment that starts at va. */
  function PageOf(va: nat, k: nat): Vpn { Split(va + k * 4096) }

  lemma SamePageSplit(va: nat, b: nat)
    requires va % 4096 == 0 && InPages(b, va, 1)
    ensures Split(b) == Split(va)
  {
    assert b / 4096 == va / 4096;
    SplitIsVpn(b); SplitIsVpn(va);
    SamePage(b, va);
  }

  lemma SplitSamePage(va: nat, b: nat)
    requires va % 4096 == 0 && va < VA_LIMIT && b < VA_LIMIT && Split(b) == Split(va)
    ensures InPages(b, va, 1) && b % 4096 == b - va
  {
    SplitDetermines(b);
    SplitDetermines(va);
  }

  /** A page descriptor written in the leaf slot of a page maps that page. */
  lemma PageMapped(frames: seq<Frame>, role: seq<Role>, root: nat, next: nat, va: nat, pa: nat, w: Word)
    requires Tree(frames, role, root, next) && va % 4096 == 0 && va < VA_LIMIT && pa % 4096 == 0
    requires Walk(frames, root, Split(va)).LeafAt?
    requires IsTable(w) && Output(w) == pa / 4096
    ensures SegmentMapped(frames, Stored(frames, Walk(frames, root, Split(va)).s, w), root, va, 1, pa, w % 4096)
  {
    var v := Split(va);
    var frames' := Stored(frames, Walk(frames, root, v).s, w);
    LeafWritten(frames, role, root, next, v, w);
    forall b: nat
      ensures Translate(frames', root, b) == if InPages(b, va, 1) then Mapped(pa + (b - va), w % 4096) else Translate(frames, root, b)
    {
      if InPages(b, va, 1) {
        SamePageSplit(va, b);
        SplitSamePage(va, b);
      } else if b < VA_LIMIT && Split(b) == v {
        SplitSamePage(va, b);
      }
    }
  }

  lemma SegmentGrows(f0: seq<Frame>, f1: seq<Frame>, f2: seq<Frame>, root: nat, va: nat, k: nat, pa: nat, attrs: nat)
    requires SegmentMapped(f0, f1, root, va, k, pa, attrs)
    requires SegmentMapped(f1, f2, root, va + k * 4096, 1, pa + k * 4096, attrs)
    ensures SegmentMapped(f0, f2, root, va, k + 1, pa, attrs)
  {
  }

  lemma SecondSlot(frames: seq<Frame>, role: seq<Role>, root: nat, next: nat, v: Vpn, pmd: nat)
    requires Tree(frames, role, root, next) && v.Ok() && NoBlock(frames, root, v)
    requires IsTable(Get(frames, Slot(root, v.u))) && Output(Get(frames, Slot(root, v.u))) == pmd
    ensures Upper(role, Slot(pmd, v.m)) && pmd != root
    ensures Get(frames, Slot(pmd, v.m)) % 2 == 0 || IsTable(Get(frames, Slot(pmd, v.m)))
    ensures Walk(frames, root, v).LeafAt? <==> IsTable(Get(frames, Slot(pmd, v.m)))
  {
    WalkRoles(frames, role, root, next, v);
  }

  lemma TwoLevels(frames: seq<Frame>, role: seq<Role>, root: nat, next: nat, v: Vpn, pmd: nat, pte: nat)
    requires Tree(frames, role, root, next) && v.Ok()
    requires IsTable(Get(frames, Slot(root, v.u))) && Output(Get(frames, Slot(root, v.u))) == pmd
    requires IsTable(Get(frames, Slot(pmd, v.m))) && Output(Get(frames, Slot(pmd, v.m))) == pte
    ensures Walk(frames, root, v) == LeafAt(Slot(pte, v.t)) && pte < |frames|
  {
    WalkRoles(frames, role, root, next, v);
  }

  /** Where aarch64_vm_init puts the four kernel arrays. */
  datatype Arrays = Arrays(pages: nat, envs: nat, timestack: nat, kernelSp: nat)

  /** The union of the four maps; everything else is translated as before. */
  ghost predicate VmMapped(frames: seq<Frame>, frames': seq<Frame>, root: nat, a: Arrays)
  {
    forall va: nat {:trigger Translate(frames', root, va)} ::
      Translate(frames', root, va) ==
      if InPages(va, UPAGES, PAGES_PAGES) then Mapped(a.pages + (va - UPAGES), NORMAL)
      else if InPages(va, UENVS, ENVS_PAGES) then Mapped(a.envs + (va - UENVS), NORMAL)
      else if InPages(va, TIMESTACK - BY2PG, 1) then Mapped(a.timestack + (va - (TIMESTACK - BY2PG)), NORMAL)
      else if InPages(va, KERNEL_SP - BY2PG, 1) then Mapped(a.kernelSp + (va - (KERNEL_SP - BY2PG)), NORMAL)
      else Translate(frames, root, va)
  }

  lemma WindowsCompose(f0: seq<Frame>, f1: seq<Frame>, f2: seq<Frame>, f3: seq<Frame>, f4: seq<Frame>, root: nat, a: Arrays)
    requires SegmentMapped(f0, f1, root, UPAGES, PAGES_PAGES, a.pages, NORMAL)
    requires SegmentMapped(f1, f2, root, UENVS, ENVS_PAGES, a.envs, NORMAL)
    requires SegmentMapped(f2, f3, root, TIMESTACK - BY2PG, 1, a.timestack, NORMAL)
    requires SegmentMapped(f3, f4, root, KERNEL_SP - BY2PG, 1, a.kernelSp, NORMAL)
    ensures VmMapped(f0, f4, root, a)
  {
  }

  /** The windows are open for aarch64_vm_init. */
  ghost predicate WindowsOpen(frames: seq<Frame>, root: nat)
  {
    && WindowOpen(frames, root, UPAGES, PAGES_PAGES) && WindowOpen(frames, root, UENVS, ENVS_PAGES)
    && WindowOpen(frames, root, TIMESTACK - BY2PG, 1) && WindowOpen(frames, root, KERNEL_SP - BY2PG, 1)
  }

  lemma WindowsStayOpen(frames: seq<Frame>, frames': seq<Frame>, root: nat)
    requires Extends(frames, frames', root) && WindowsOpen(frames, root)
    ensures WindowsOpen(frames', root)
  {
  }

  lemma WindowSpans()
    ensures Spans(UPAGES / 4096, PAGES_PAGES) == 3 && Spans(UENVS / 4096, ENVS_PAGES) == 1
    ensures Spans((TIMESTACK - BY2PG) / 4096, 1) == 1 && Spans((KERNEL_SP - BY2PG) / 4096, 1) == 1
  {
  }

  /** Pages and tables of the four windows, at most. */
  const VM_PAGES: nat := 1648

  /** ROUND of a size, in pages. */
  method PagesFor(bytes: Word) returns (n: nat)
    requires bytes + 4095 < TWO64
    ensures n == (bytes + 4095) / 4096
  {
    RoundPage(bytes);
    n := Round(bytes, BY2PG) / BY2PG;
  }

  class BootMemory {
    const npage: nat
    const root: nat                    // frame of _pg_dir
    const frames: array<Frame>
    var freemem: Word
    var panicked: bool
    ghost var role: seq<Role>

    ghost predicate Valid()
      reads this, frames
    {
      && frames.Length == npage <= MAX_PAGES
      && freemem % 4096 == 0 && freemem <= npage * 4096
      && Tree(frames[..], role, root, freemem / 4096)
      && (panicked <==> freemem == npage * 4096)
    }

    /** Memory with its boot tables, as boot_mmu_setup leaves them. */
    constructor (frames: array<Frame>, root: nat, freemem: nat, ghost role: seq<Role>)
      requires frames.Length <= MAX_PAGES && freemem % 4096 == 0 && freemem < frames.Length * 4096
      requires Tree(frames[..], role, root, freemem / 4096)
      ensures Valid() && !panicked && this.npage == frames.Length && this.root == root && this.frames == frames && this.freemem == freemem
    {
      this.npage := frames.Length;
      this.root := root;
      this.frames := frames;
      this.freemem := freemem;
      this.panicked := false;
      this.role := role;
    }

    /** alloc(n * BY2PG, BY2PG, 1): cleared memory, by whole pages. It panics once the end of memory is reached. */
    method Alloc(n: nat) returns (pa: nat)
      requires Valid() && freemem + n * 4096 <= npage * 4096
      modifies this`freemem, this`panicked, frames
      ensures Valid() && pa == old(freemem) && freemem == old(freemem) + n * 4096
      ensures Cleared(old(frames[..]), frames[..], pa / 4096, n)
      ensures SameTranslation(old(frames[..]), frames[..], root) && Extends(old(frames[..]), frames[..], root)
      ensures RootKept(old(frames[..]), frames[..], root)
    {
      pa := Aligned(freemem);
      freemem := freemem + n * 4096;
      ClearPages(pa / 4096, n);
      UnusedChanged(old(frames[..]), frames[..], role, root, pa / 4096, freemem / 4096);
      if freemem >= npage * 4096 {
        panicked := true;
      }
    }

    /** bzero of n pages. */
    method ClearPages(first: nat, n: nat)
      requires first + n <= frames.Length
      modifies frames
      ensures Cleared(old(frames[..]), frames[..], first, n)
    {
      for k := 0 to n
        invariant Cleared(old(frames[..]), frames[..], first, k)
      {
        frames[first + k] := ZeroFrame();
      }
    }

    /** `*entry = w` */
    method Store(s: Slot, w: Word)
      requires s.frame < frames.Length && s.index < ENTRIES
      modifies frames
      ensures frames[..] == Stored(old(frames[..]), s, w)
    {
      frames[s.frame] := frames[s.frame][s.index := w];
    }

    /** The creating branch of one level: a cleared page, entered in slot s. */
    method NewTable(s: Slot) returns (table: nat)
      requires Valid() && !panicked && Upper(role, s) && Get(frames[..], s) % 2 == 0
      modifies this, frames
      ensures Valid()
      ensures SameTranslation(old(frames[..]), frames[..], root) && Extends(old(frames[..]), frames[..], root)
      ensures !panicked ==> IsTable(Get(frames[..], s)) && table == Output(Get(frames[..], s))
      ensures freemem == old(freemem) + BY2PG && (s.frame != root ==> RootKept(old(frames[..]), frames[..], root))
    {
      ghost var before := frames[..];
      assert role[s.frame] != Boot;
      var pa := Alloc(1);
      table := pa / BY2PG;
      if panicked {
        return;
      }
      var w := PageEntry(pa, 0);
      Store(s, w);
      assert frames[..] == LinkTable(before, s, table, w);
      LinkTableRefines(before, role, root, table, s, w);
      LinkTableShape(before, role, root, table, s, w);
      role := role[table := Below(role, s)];
    }

    /**
     One level of boot_pgdir_walk: the table behind the descriptor at s, or a
     new one. Both levels of the source repeat these lines.
     */
    method TableBehind(s: Slot) returns (table: nat)
      requires Valid() && !panicked && Upper(role, s)
      requires Get(frames[..], s) % 2 == 0 || IsTable(Get(frames[..], s))
      modifies this, frames
      ensures Valid()
      ensures SameTranslation(old(frames[..]), frames[..], root) && Extends(old(frames[..]), frames[..], root)
      ensures !panicked ==> IsTable(Get(frames[..], s)) && table == Output(Get(frames[..], s))
      ensures IsTable(old(Get(frames[..], s))) ==> !panicked && freemem == old(freemem) && frames[..] == old(frames[..])
      ensures !IsTable(old(Get(frames[..], s))) ==> freemem == old(freemem) + BY2PG
      ensures s.frame != root || IsTable(old(Get(frames[..], s))) ==> RootKept(old(frames[..]), frames[..], root)
    {
      var w := frames[s.frame][s.index];
      var valid := IsSet(w);
      if valid {
        assert ChildOk(frames[..], role, s);
        var pa := TableAddress(w);
        table := pa / BY2PG;
      } else {
        table := NewTable(s);
      }
    }

    /** boot_pgdir_walk with create set: tables appear, translations stay. */
    method BootPgdirWalk(va: nat) returns (entry: Slot)
      requires Valid() && !panicked && NoBlock(frames[..], root, Split(va))
      modifies this, frames
      ensures Valid()
      ensures SameTranslation(old(frames[..]), frames[..], root) && Extends(old(frames[..]), frames[..], root)
      ensures !panicked ==> Walk(frames[..], root, Split(va)) == LeafAt(entry) && entry.frame < npage && entry.index < ENTRIES
      ensures old(freemem) <= freemem <= old(freemem) + NewTables(old(frames[..]), root, Split(va)) * BY2PG
      ensures IsTable(Get(old(frames[..]), Slot(root, Split(va).u))) ==> RootKept(old(frames[..]), frames[..], root)
    {
      ghost var before := frames[..];
      var v := TableIndices(va);
      WalkRoles(before, role, root, freemem / 4096, v);
      var pmd := TableBehind(Slot(root, v.u));
      if panicked {
        return Slot(0, 0);
      }
      ghost var mid := frames[..];
      entry := SecondLevel(pmd, v);
      ExtendsTrans(before, mid, frames[..], root);
    }

    /** The second level of boot_pgdir_walk. */
    method SecondLevel(pmd: nat, v: Vpn) returns (entry: Slot)
      requires Valid() && !panicked && v.Ok() && NoBlock(frames[..], root, v)
      requires IsTable(Get(frames[..], Slot(root, v.u))) && Output(Get(frames[..], Slot(root, v.u))) == pmd
      modifies this, frames
      ensures Valid()
      ensures SameTranslation(old(frames[..]), frames[..], root) && Extends(old(frames[..]), frames[..], root)
      ensures !panicked ==> Walk(frames[..], root, v) == LeafAt(entry) && entry.frame < npage && entry.index < ENTRIES
      ensures freemem == old(freemem) + if Walk(old(frames[..]), root, v).LeafAt? then 0 else BY2PG
      ensures RootKept(old(frames[..]), frames[..], root)
    {
      ghost var before := frames[..];
      SecondSlot(before, role, root, freemem / 4096, v, pmd);
      var pte := TableBehind(Slot(pmd, v.m));
      entry := Slot(pte, v.t);
      if !panicked {
        assert Get(frames[..], Slot(root, v.u)) == Get(before, Slot(root, v.u));
        TwoLevels(frames[..], role, root, freemem / 4096, v, pmd, pte);
      }
    }

    /** The body of boot_map_segment's loop. */
    method MapPage(va: nat, pa: nat, perm: nat)
      requires Valid() && !panicked && va % 4096 == 0 && va < VA_LIMIT && NoBlock(frames[..], root, Split(va))
      requires pa % 4096 == 0 && pa / 4096 < 0x10_0000_0000 && perm < 4096
      modifies this, frames
      ensures Valid() && Extends(old(frames[..]), frames[..], root)
      ensures old(freemem) <= freemem <= old(freemem) + NewTables(old(frames[..]), root, Split(va)) * BY2PG
      ensures IsTable(Get(old(frames[..]), Slot(root, Split(va).u))) ==> RootKept(old(frames[..]), frames[..], root)
      ensures !panicked ==> SegmentMapped(old(frames[..]), frames[..], root, va, 1, pa, Attrs(perm)) && Walk(frames[..], root, Split(va)).LeafAt?
    {
      ghost var before := frames[..];
      var entry := BootPgdirWalk(va);
      if panicked {
        return;
      }
      var w := PageEntry(pa, perm);
      ghost var mid := frames[..];
      Store(entry, w);
      LeafWritten(mid, role, root, freemem / 4096, Split(va), w);
      PageMapped(mid, role, root, freemem / 4096, va, pa, w);
      ExtendsTrans(before, mid, frames[..], root);
      MappedBefore(before, mid, frames[..], root, va, 1, pa, Attrs(perm));
    }

    /** boot_map_segment, for page-aligned addresses. */
    method BootMapSegment(va: nat, size: nat, pa: nat, perm: nat)
      requires Valid() && !panicked && perm < 4096
      requires va % 4096 == 0 && va + size <= VA_LIMIT && pa % 4096 == 0 && pa + size <= 0x1_0000_0000_0000
      requires forall k: nat {:trigger PageOf(va, k)} :: k < size / BY2PG ==> NoBlock(frames[..], root, PageOf(va, k))
      modifies this, frames
      ensures Valid() && Extends(old(frames[..]), frames[..], root) && freemem >= old(freemem)
      ensures size % BY2PG != 0 ==> frames[..] == old(frames[..]) && freemem == old(freemem)
      ensures size % BY2PG == 0 && !panicked ==> SegmentMapped(old(frames[..]), frames[..], root, va, size / BY2PG, pa, Attrs(perm))
      ensures TablesReady(old(frames[..]), root, va, size / BY2PG) ==>
                freemem <= old(freemem) + Spans(va / 4096, size / BY2PG) * BY2PG && RootKept(old(frames[..]), frames[..], root)
    {
      if size % BY2PG != 0 {
        return;
      }
      ghost var p := Progress(frames[..], root, va, size / BY2PG, pa, Attrs(perm), freemem);
      PagesOfSize(size);
      MapPages(va, size, pa, perm, p);
    }

    /** The loop of boot_map_segment. */
    method MapPages(va: nat, size: nat, pa: nat, perm: nat, ghost p: Progress)
      requires Valid() && !panicked && perm < 4096 && pa % 4096 == 0 && pa + size <= 0x1_0000_0000_0000
      requires p == Progress(frames[..], root, va, p.n, pa, Attrs(perm), freemem) && root < npage && p.Open() && size == p.n * BY2PG
      modifies this, frames
      ensures Valid() && Extends(p.frames, frames[..], root) && p.Within(frames[..], freemem, p.n) && freemem >= old(freemem)
      ensures !panicked ==> SegmentMapped(p.frames, frames[..], root, va, p.n, pa, Attrs(perm))
    {
      ghost var k := 0;
      var i := 0;
      while i < size
        invariant k <= p.n && i == k * BY2PG && Valid() && !panicked && freemem >= old(freemem)
        invariant p.Done(frames[..], freemem, k)
      {
        MapRound(va + i, pa + i, perm, p, k);
        if panicked {
          return;
        }
        i := i + BY2PG;
        k := k + 1;
      }
    }

    /** One window of aarch64_vm_init: n pages of cleared memory, mapped at va. */
    method MapWindow(va: nat, n: nat) returns (pa: nat)
      requires Valid() && !panicked && va % 4096 == 0 && va + n * BY2PG <= VA_LIMIT && WindowOpen(frames[..], root, va, n)
      requires freemem + (n + Spans(va / 4096, n)) * BY2PG < npage * BY2PG
      modifies this, frames
      ensures Valid() && !panicked && Extends(old(frames[..]), frames[..], root) && RootKept(old(frames[..]), frames[..], root)
      ensures pa == old(freemem) && pa + n * BY2PG <= freemem <= pa + (n + Spans(va / 4096, n)) * BY2PG
      ensures SegmentMapped(old(frames[..]), frames[..], root, va, n, pa, NORMAL)
    {
      ghost var before := frames[..];
      pa := Alloc(n);
      ghost var mid := frames[..];
      WindowStaysOpen(before, mid, root, va, n);
      MapWhole(va, n * BY2PG, pa, n);
      ExtendsTrans(before, mid, frames[..], root);
      MappedBefore(before, mid, frames[..], root, va, n, pa, NORMAL);
    }

    /** boot_map_segment with PTE_V on an open window of n pages. */
    method MapWhole(va: nat, size: nat, pa: nat, ghost n: nat)
      requires Valid() && !panicked && size == n * BY2PG
      requires va % 4096 == 0 && va + size <= VA_LIMIT && WindowOpen(frames[..], root, va, n) && pa % 4096 == 0 && pa + size <= 0x1_0000_0000_0000
      modifies this, frames
      ensures Valid() && Extends(old(frames[..]), frames[..], root) && RootKept(old(frames[..]), frames[..], root)
      ensures old(freemem) <= freemem <= old(freemem) + Spans(va / 4096, n) * BY2PG
      ensures !panicked ==> SegmentMapped(old(frames[..]), frames[..], root, va, n, pa, NORMAL)
    {
      NormalAttrs();
      PagesInSize(size, n);
      BootMapSegment(va, size, pa, PTE_V);
    }

    /** aarch64_vm_init: the kernel arrays, allocated one after the other and mapped at their windows. */
    method VmInit() returns (a: Arrays)
      requires Valid() && !panicked && npage == MAX_PAGES && WindowsOpen(frames[..], root)
      requires freemem + VM_PAGES * BY2PG < npage * BY2PG
      modifies this, frames
      ensures Valid() && !panicked && Extends(old(frames[..]), frames[..], root) && RootKept(old(frames[..]), frames[..], root)
      ensures VmMapped(old(frames[..]), frames[..], root, a)
      ensures old(freemem) == a.pages && a.pages + PAGES_PAGES * BY2PG <= a.envs && a.envs + ENVS_PAGES * BY2PG <= a.timestack
      ensures a.timestack + BY2PG <= a.kernelSp && a.kernelSp + BY2PG <= freemem <= old(freemem) + VM_PAGES * BY2PG
    {
      WindowsDisjoint();
      WindowSpans();
      ghost var f0 := frames[..];
      var n := PagesFor(npage * SIZEOF_PAGE);
      var pages := MapWindow(UPAGES, n);
      ghost var f1 := frames[..];
      WindowsStayOpen(f0, f1, root);
      n := PagesFor(NENVS * SIZEOF_ENV);
      var envs := MapWindow(UENVS, n);
      ghost var f2 := frames[..];
      WindowsStayOpen(f1, f2, root);
      ExtendsTrans(f0, f1, f2, root);
      var timestack := MapWindow(TIMESTACK - BY2PG, 1);
      ghost var f3 := frames[..];
      WindowsStayOpen(f2, f3, root);
      ExtendsTrans(f0, f2, f3, root);
      var kernelSp := MapWindow(KERNEL_SP - BY2PG, 1);
      ExtendsTrans(f0, f3, frames[..], root);
      a := Arrays(pages, envs, timestack, kernelSp);
      WindowsCompose(f0, f1, f2, f3, frames[..], root, a);
    }

    method MapRound(va: nat, pa: nat, perm: nat, ghost p: Progress, ghost k: nat)
      requires Valid() && !panicked && perm < 4096 && p.pa % 4096 == 0 && p.pa + p.n * 4096 <= 0x1_0000_0000_0000
      requires p.root == root && p.attrs == Attrs(perm) && p.Open() && k < p.n && p.Done(frames[..], freemem, k)
      requires va == p.va + k * BY2PG && pa == p.pa + k * BY2PG
      modifies this, frames
      ensures Valid() && Extends(p.frames, frames[..], root) && p.Within(frames[..], freemem, p.n) && freemem >= old(freemem)
      ensures !panicked ==> p.Done(frames[..], freemem, k + 1)
    {
      ghost var now, used := frames[..], freemem;
      OpenPage(p, now, used, k);
      PageBounds(p.va, k, p.n, VA_LIMIT);
      PageBounds(p.pa, k, p.n, 0x1_0000_0000_0000);
      MapPage(va, pa, perm);
      DoneStep(p, now, frames[..], used, freemem, k, panicked);
    }
  }

  /** A window of n pages whose second-level tables exist and in which no block stands. */
  ghost predicate WindowOpen(frames: seq<Frame>, root: nat, va: nat, n: nat)
  {
    TablesReady(frames, root, va, n) && forall k: nat {:trigger PageOf(va, k)} :: k < n ==> NoBlock(frames, root, PageOf(va, k))
  }

  lemma WindowStaysOpen(frames: seq<Frame>, frames': seq<Frame>, root: nat, va: nat, n: nat)
    requires Extends(frames, frames', root) && WindowOpen(frames, root, va, n)
    ensures WindowOpen(frames', root, va, n)
  {
  }

  lemma MappedBefore(f0: seq<Frame>, f1: seq<Frame>, f2: seq<Frame>, root: nat, va: nat, n: nat, pa: nat, attrs: nat)
    requires SameTranslation(f0, f1, root) && SegmentMapped(f1, f2, root, va, n, pa, attrs)
    ensures SegmentMapped(f0, f2, root, va, n, pa, attrs)
  {
  }

  lemma PageBounds(start: nat, k: nat, n: nat, limit: nat)
    requires start % 4096 == 0 && k < n && start + n * 4096 <= limit && limit <= 0x1_0000_0000_0000
    ensures var a := start + k * BY2PG; a % 4096 == 0 && a < limit && a / 4096 < 0x10_0000_0000
  {
  }

  lemma PagesInSize(size: nat, n: nat)
    requires size == n * BY2PG
    ensures size % BY2PG == 0 && size / BY2PG == n
  {
  }

  lemma PagesOfSize(size: nat)
    requires size % BY2PG == 0
    ensures size == size / BY2PG * BY2PG
  {
  }

  /** A segment of n pages being mapped; `frames` and `used` describe memory before it. */
  datatype Progress = Progress(frames: seq<Frame>, root: nat, va: nat, n: nat, pa: nat, attrs: nat, used: nat) {
    /** Its first k pages are mapped. */
    ghost predicate Done(frames': seq<Frame>, used': nat, k: nat)
    {
      && Extends(frames, frames', root)
      && SegmentMapped(frames, frames', root, va, k, pa, attrs)
      && (k > 0 ==> Walk(frames', root, PageOf(va, k - 1)).LeafAt?)
      && Within(frames', used', k)
    }

    /** Below existing second-level tables, each slot has cost one table at most and the root is as it was. */
    ghost predicate Within(frames': seq<Frame>, used': nat, k: nat)
    {
      TablesReady(frames, root, va, n) ==> used' <= used + Spans(va / 4096, k) * BY2PG && RootKept(frames, frames', root)
    }

    ghost predicate Open()
    {
      && va % 4096 == 0 && va + n * 4096 <= VA_LIMIT
      && forall k: nat {:trigger PageOf(va, k)} :: k < n ==> NoBlock(frames, root, PageOf(va, k))
    }
  }

  lemma OpenPage(p: Progress, now: seq<Frame>, used: nat, k: nat)
    requires p.Open() && k < p.n && p.Done(now, used, k)
    ensures NoBlock(now, p.root, PageOf(p.va, k))
  {
  }

  lemma DoneStep(p: Progress, now: seq<Frame>, after: seq<Frame>, used: nat, used': nat, k: nat, panicked: bool)
    requires p.Open() && k < p.n && p.Done(now, used, k)
    requires IsTable(Get(now, Slot(p.root, PageOf(p.va, k).u))) ==> RootKept(now, after, p.root)
    requires Extends(now, after, p.root) && used' <= used + NewTables(now, p.root, PageOf(p.va, k)) * BY2PG
    requires !panicked ==> SegmentMapped(now, after, p.root, p.va + k * 4096, 1, p.pa + k * 4096, p.attrs) && Walk(after, p.root, PageOf(p.va, k)).LeafAt?
    ensures Extends(p.frames, after, p.root) && p.Within(after, used', k + 1) && p.Within(after, used', p.n)
    ensures !panicked ==> p.Done(after, used', k + 1)
  {
    ExtendsTrans(p.frames, now, after, p.root);
    if TablesReady(p.frames, p.root, p.va, p.n) {
      assert IsTable(Get(p.frames, Slot(p.root, PageOf(p.va, k).u)));
      NextPageTables(now, p.root, p.va, k);
      SpansMonotone(p.va / 4096, k + 1, p.n);
    }
    if !panicked { SegmentGrows(p.frames, now, after, p.root, p.va, k, p.pa, p.attrs); }
  }

  lemma SpansMonotone(p: nat, k: nat, n: nat)
    requires k <= n
    ensures Spans(p, k) <= Spans(p, n)
  {
  }

  /** The second-level tables of a segment exist. */
  ghost predicate TablesReady(frames: seq<Frame>, root: nat, va: nat, n: nat)
  {
    forall k: nat {:trigger PageOf(va, k)} :: k < n ==> IsTable(Get(frames, Slot(root, PageOf(va, k).u)))
  }

  /** Page k of a segment has its tables already if page k - 1 has, and both lie below the same second-level slot. */
  lemma NextPageTables(frames: seq<Frame>, root: nat, va: nat, k: nat)
    requires va % 4096 == 0 && va + k * 4096 + 4096 <= VA_LIMIT && IsTable(Get(frames, Slot(root, PageOf(va, k).u)))
    requires k > 0 ==> Walk(frames, root, PageOf(va, k - 1)).LeafAt?
    ensures Spans(va / 4096, k) + NewTables(frames, root, PageOf(va, k)) <= Spans(va / 4096, k + 1)
  {
    var p := va / 4096;
    PageIndices(va, k);
    if k > 0 && (p + k) / 512 == (p + k - 1) / 512 {
      PageIndices(va, k - 1);
    }
  }

  lemma PageIndices(va: nat, k: nat)
    requires va % 4096 == 0 && va + k * 4096 + 4096 <= VA_LIMIT
    ensures PageOf(va, k).u == (va / 4096 + k) / 512 / 512 && PageOf(va, k).m == (va / 4096 + k) / 512 % 512
  {
  }

  /** How many tables are missing on the way to page v. */
  function NewTables(frames: seq<Frame>, root: nat, v: Vpn): nat
  {
    if Walk(frames, root, v).LeafAt? then 0 else if IsTable(Get(frames, Slot(root, v.u))) then 1 else 2
  }

  /** ROUND of an address that is a multiple already. */
  method Aligned(a: Word) returns (r: nat)
    requires a % 4096 == 0 && a + 4095 < TWO64
    ensures r == a
  {
    RoundPage(a);
    r := Round(a, BY2PG);
  }

  /** PUDX, PMDX and PTEX */
  method TableIndices(va: nat) returns (v: Vpn)
    ensures v == Split(va)
  {
    SplitIsVpn(va);
    v := Vpn(Pudx(va), Pmdx(va), Ptex(va));
  }

  /** `entry & PTE_V` */
  method IsSet(w: Word) returns (valid: bool)
    ensures valid == (w % 2 == 1)
  {
    ValidIsOdd(w);
    valid := Mmu.Valid(w);
  }

  /** PTE_ADDR */
  method TableAddress(w: Word) returns (pa: nat)
    ensures pa == w / 4096 * 4096
  {
    PteAddrIsFrame(w);
    pa := PteAddr(w);
  }

  /** `pa | perm | TYPE_PAGE | PTE_AF | PTE_USER | PTE_ISH | PTE_NORMAL` */
  method PageEntry(pa: nat, perm: nat) returns (w: Word)
    requires pa % 4096 == 0 && pa / 4096 < 0x10_0000_0000 && perm < 4096
    ensures IsTable(w) && Output(w) == FrameOf(w) == pa / 4096 && w % 4096 == Attrs(perm)
  {
    PageAddress(pa / 4096);
    DescriptorValue(pa / 4096, perm);
    w := Descriptor(pa, perm);
    EntryParts(w, pa / 4096, Attrs(perm));
  }

  lemma EntryParts(w: Word, f: nat, a: nat)
    requires w == f * 4096 + a && f < 0x10_0000_0000 && a < 4096 && a % 4 == 3
    ensures IsTable(w) && Output(w) == FrameOf(w) == f && w % 4096 == a
  {
    assert w / 4096 == f;
    assert w == 4 * (f * 1024 + a / 4) + 3;
  }
}
