/**
 mm/pmap.c on values: physical memory as frames of 512 words, the reference
 counts and the free list, and what each allocator and page-table operation
 makes of them. PhysMemory (Pmap.dfy) runs the same operations in place.

 Every frame carries a `role`, which the kernel leaves implicit: a table
 remembers the one slot that points at it. This is what makes the table trees
 of different environments disjoint.
 */
module Memory {
  import opened Bits
  import opened Mmu

  datatype Option<+T> = None | Some(value: T)

  type Frame = f: seq<Word> | |f| == ENTRIES witness seq(ENTRIES, _ => 0)

  function ZeroFrame(): (z: Frame)
    ensures forall i :: 0 <= i < ENTRIES ==> z[i] == 0
  {
    seq(ENTRIES, _ => 0)
  }

  /** The address of a word of physical memory: frame number and index in the frame. */
  datatype Slot = Slot(frame: nat, index: nat)

  datatype Role =
    | Boot               // in use before page_init: kernel image, boot tables, kernel arrays
    | Plain              // free, or holding data
    | Root               // top-level table of an environment
    | Pmd(up: Slot)      // second-level table, linked from a slot of a root
    | Pte(up: Slot)      // third-level table, linked from a slot of a Pmd

  datatype Mem = Mem(
    frames: seq<Frame>,
    ref: seq<nat>,          // pp_ref, an unsigned short
    free: seq<nat>,         // page_free_list
    role: seq<Role>,
    pins: seq<nat>,         // references counted by an explicit pp_ref++, not by a table entry
    kroot: nat              // the frame of _pg_dir
  )

  datatype Status = Ok | NoMem | Panic

  /** Top-level slots below this one are copied from _pg_dir and shared by every environment. */
  const SHARED: nat := 2

  // -------- words and descriptors --------

  function FrameOf(w: Word): nat { w / 4096 }
  predicate IsValid(w: Word) { w % 2 == 1 }

  /** Bits 1:0 of a table descriptor, and of a page descriptor at level 3. */
  predicate IsTable(w: Word) { w % 4 == 3 }

  function AsWord(x: nat): Word { x % TWO64 }

  function TableEntry(f: nat): Word { AsWord(Descriptor(Page2Pa(f), 0)) }

  /** What page_insert stores: `page2pa(pp) | (perm | PTE_V) | TYPE_PAGE | ...`, perm being an unsigned int. */
  function LeafEntry(p: nat, perm: nat): Word
  {
    AsWord(Descriptor(Page2Pa(p), BitOr(perm, PTE_V)))
  }

  /** The attribute bits page_insert stores for a permission word. */
  function LeafAttrs(perm: nat): nat { Attrs(BitOr(perm, PTE_V) % 4096) }

  /**
   The permission word is or-ed into the entry unmasked: its bits from bit 12 up
   leave page p alone when they are bits of the page number already.
   LeafEntryKeepsPage states that this is exact.
   */
  predicate KeepsPage(p: nat, perm: nat) { BitAnd(p, perm / 4096) == perm / 4096 }

  const MAX_FRAMES: nat := 0x1_0000_0000

  lemma TableEntryDecodes(f: nat)
    requires f < MAX_FRAMES
    ensures IsTable(TableEntry(f)) && IsValid(TableEntry(f)) && FrameOf(TableEntry(f)) == f
  {
    DescriptorParts(f, 0);
    BitOrZero(f);
    WordParts(Descriptor(Page2Pa(f), 0), f, Attrs(0));
  }

  lemma LeafEntryDecodes(p: nat, perm: nat)
    requires p < MAX_FRAMES && KeepsPage(p, perm)
    ensures LeafAttrs(perm) < 4096 && LeafEntry(p, perm) % 4096 == LeafAttrs(perm)
    ensures IsTable(LeafEntry(p, perm)) && IsValid(LeafEntry(p, perm)) && FrameOf(LeafEntry(p, perm)) == p
  {
    OrValidBit(perm);
    OrAbsorbs(p, perm / 4096);
    DescriptorOnPage(p, BitOr(perm, PTE_V));
  }

  /** Small permission words keep every page. */
  lemma SmallKeeps(p: nat, perm: nat)
    requires perm < 4096
    ensures KeepsPage(p, perm)
  {
  }

  lemma DescriptorOnPage(p: nat, q: nat)
    requires p < MAX_FRAMES && BitOr(p, q / 4096) == p
    ensures Attrs(q % 4096) < 4096
    ensures var w := AsWord(Descriptor(Page2Pa(p), q)); IsTable(w) && IsValid(w) && FrameOf(w) == p && w % 4096 == Attrs(q % 4096)
  {
    DescriptorParts(p, q);
    WordParts(Descriptor(Page2Pa(p), q), p, Attrs(q % 4096));
  }

  lemma WordParts(x: nat, f: nat, a: nat)
    requires x == f * 4096 + a && a < 4096 && a % 4 == 3 && f < 0x10_0000_0000
    ensures IsTable(AsWord(x)) && IsValid(AsWord(x)) && FrameOf(AsWord(x)) == f && AsWord(x) % 4096 == a
  {
    assert x < TWO64;
    PartsOf(x, f, a);
  }

  lemma PartsOf(x: nat, f: nat, a: nat)
    requires x == f * 4096 + a && a < 4096 && a % 4 == 3
    ensures x / 4096 == f && x % 4096 == a && x % 4 == 3 && x % 2 == 1
  {
  }

  /**
   For every 32-bit permission word, the stored descriptor still names page p
   exactly when the permission bits from bit 12 up are bits of the page number.
   */
  lemma LeafEntryKeepsPage(p: nat, perm: nat)
    requires p < MAX_FRAMES && perm < 0x1_0000_0000
    ensures FrameOf(LeafEntry(p, perm)) == p <==> KeepsPage(p, perm)
  {
    OrValidBit(perm);
    OrBound(p, perm / 4096);
    OrAbsorbs(p, perm / 4096);
    LeafWithHighBits(p, BitOr(perm, PTE_V));
  }

  lemma OrValidBit(perm: nat)
    ensures BitOr(perm, PTE_V) / 4096 == perm / 4096
  {
    OrPage(perm / 4096, perm % 4096, 0, PTE_V);
    BitOrZero(perm / 4096);
  }

  lemma LeafWithHighBits(p: nat, q: nat)
    requires p < MAX_FRAMES && BitOr(p, q / 4096) < 0x10_0000_0000
    ensures FrameOf(AsWord(Descriptor(Page2Pa(p), q))) == BitOr(p, q / 4096)
  {
    DescriptorParts(p, q);
    WordFrame(Descriptor(Page2Pa(p), q), BitOr(p, q / 4096), Attrs(q % 4096));
  }

  lemma WordFrame(x: nat, q: nat, a: nat)
    requires x == q * 4096 + a && a < 4096 && q < 0x10_0000_0000
    ensures FrameOf(AsWord(x)) == q
  {
  }

  lemma {:induction false} OrBound(a: nat, b: nat)
    ensures BitOr(a, b) <= a + b
    decreases a + b
  {
    if a == 0 || b == 0 {
    } else {
      OrBound(a / 2, b / 2);
    }
  }

  // -------- memory --------

  function At(m: Mem, s: Slot): Word
  {
    if s.frame < |m.frames| && s.index < ENTRIES then m.frames[s.frame][s.index] else 0
  }

  function Stored(frames: seq<Frame>, s: Slot, w: Word): (r: seq<Frame>)
    ensures |r| == |frames|
  {
    if s.frame < |frames| && s.index < ENTRIES then frames[s.frame := frames[s.frame][s.index := w]] else frames
  }

  function Zeroed(frames: seq<Frame>, f: nat): (r: seq<Frame>)
    ensures |r| == |frames|
  {
    if f < |frames| then frames[f := ZeroFrame()] else frames
  }

  function Put(m: Mem, s: Slot, w: Word): Mem
  {
    m.(frames := Stored(m.frames, s, w))
  }

  function Incr(m: Mem, p: nat): Mem
  {
    if p < |m.ref| then m.(ref := m.ref[p := (m.ref[p] + 1) % 65536]) else m
  }

  function Decr(m: Mem, p: nat): Mem
  {
    if p < |m.ref| then m.(ref := m.ref[p := (m.ref[p] + 65535) % 65536]) else m
  }

  /** page_alloc, when the free list is not empty: the page is m.free[0]. */
  function TakeFree(m: Mem): Mem
    requires m.free != []
  {
    m.(free := m.free[1..], frames := Zeroed(m.frames, m.free[0]))
  }

  /** page_free */
  function PageFree(m: Mem, p: nat): Mem
  {
    if p < |m.ref| && m.ref[p] == 0 then m.(free := [p] + m.free) else m
  }

  /** The body of the two creating branches of pgdir_walk: a new table behind slot s. */
  function Grow(m: Mem, s: Slot): Mem
    requires m.free != []
  {
    Linked(m, s, TableEntry(m.free[0]))
  }

  /** The first free frame becomes an empty table, entered in slot s by the word w. */
  function Linked(m: Mem, s: Slot, w: Word): Mem
    requires m.free != []
  {
    var f := m.free[0];
    var m1 := Incr(Put(TakeFree(m), s, w), f);
    if f < |m1.role| then m1.(role := m1.role[f := ChildRole(m, s)]) else m1
  }

  function ChildRole(m: Mem, s: Slot): Role
  {
    if s.frame < |m.role| && m.role[s.frame].Pmd? then Pte(s) else Pmd(s)
  }

  datatype WalkResult = WalkResult(mem: Mem, status: Status, entry: Option<Slot>)

  /** pgdir_walk. An address matters only through its page number v here and below. */
  function PgdirWalk(m: Mem, root: nat, v: Vpn, create: bool): WalkResult
  {
    var s0 := Slot(root, v.u);
    if !IsValid(At(m, s0)) && (!create || m.free == []) then WalkResult(m, NoMem, None)
    else
      var m1 := if IsValid(At(m, s0)) then m else Grow(m, s0);
      var s1 := Slot(FrameOf(At(m1, s0)), v.m);
      if !IsValid(At(m1, s1)) && (!create || m1.free == []) then WalkResult(m1, NoMem, None)
      else
        var m2 := if IsValid(At(m1, s1)) then m1 else Grow(m1, s1);
        WalkResult(m2, Ok, Some(Slot(FrameOf(At(m2, s1)), v.t)))
  }

  datatype LookupResult = Missing | Invalid | Found(page: nat, entry: Slot)

  /** page_lookup; `Invalid` is the panic of pa2page. */
  function PageLookup(m: Mem, root: nat, v: Vpn): LookupResult
  {
    match PgdirWalk(m, root, v, false).entry
    case None => Missing
    case Some(e) =>
      if !IsValid(At(m, e)) then Missing
      else if FrameOf(At(m, e)) >= |m.ref| then Invalid
      else Found(FrameOf(At(m, e)), e)
  }

  /** page_remove */
  function PageRemove(m: Mem, root: nat, v: Vpn): (Mem, Status)
  {
    match PageLookup(m, root, v)
    case Missing => (m, Ok)
    case Invalid => (m, Panic)
    case Found(p, e) => (Put(PageFree(Decr(m, p), p), e, 0), Ok)
  }

  /** page_insert */
  function PageInsert(m: Mem, root: nat, pp: nat, v: Vpn, perm: nat): (Mem, Status)
  {
    match PageLookup(m, root, v)
    case Invalid => (m, Panic)
    case Found(p, e) =>
      if p == pp then (Put(m, e, LeafEntry(pp, perm)), Ok)
      else InsertFresh(PageRemove(m, root, v).0, root, pp, v, perm)
    case Missing => InsertFresh(m, root, pp, v, perm)
  }

  function InsertFresh(m: Mem, root: nat, pp: nat, v: Vpn, perm: nat): (Mem, Status)
  {
    var w := PgdirWalk(m, root, v, true);
    match w.entry
    case None => (w.mem, NoMem)
    case Some(e) => (Incr(Put(w.mem, e, LeafEntry(pp, perm)), pp), Ok)
  }

  // -------- the abstract address space --------

  datatype Leaf = Leaf(frame: nat, attrs: nat)

  /** The third-level slot of page v, when both tables above it exist. */
  function LeafSlot(m: Mem, root: nat, v: Vpn): Option<Slot>
  {
    var w0 := At(m, Slot(root, v.u));
    if !IsValid(w0) then None
    else
      var w1 := At(m, Slot(FrameOf(w0), v.m));
      if !IsValid(w1) then None else Some(Slot(FrameOf(w1), v.t))
  }

  /** What the table tree below `root` maps page v to. */
  function Mapping(m: Mem, root: nat, v: Vpn): Option<Leaf>
  {
    match LeafSlot(m, root, v)
    case None => None
    case Some(s) => if IsValid(At(m, s)) then Some(Leaf(FrameOf(At(m, s)), At(m, s) % 4096)) else None
  }

  /** How many tables on the path to v do not exist yet. */
  function MissingTables(m: Mem, root: nat, v: Vpn): nat
  {
    var w0 := At(m, Slot(root, v.u));
    if !IsValid(w0) then 2
    else if !IsValid(At(m, Slot(FrameOf(w0), v.m))) then 1
    else 0
  }

  predicate Private(v: Vpn) { v.Ok() && v.u >= SHARED }

  ghost predicate IsRoot(m: Mem, r: nat) { r < |m.role| && m.role[r] == Root }

  // -------- the invariant --------

  ghost predicate Sizes(m: Mem)
  {
    && |m.ref| == |m.frames| && |m.role| == |m.frames| && |m.pins| == |m.frames|
    && |m.frames| <= MAX_FRAMES
  }

  /** A slot whose entry, if valid, is counted in pp_ref. */
  ghost predicate TableSlot(m: Mem, s: Slot)
  {
    && s.frame < |m.frames| && s.frame < |m.role| && s.index < ENTRIES
    && match m.role[s.frame]
       case Root => s.index >= SHARED
       case Pmd(_) => true
       case Pte(_) => true
       case _ => false
  }

  ghost predicate Counted(m: Mem, s: Slot)
  {
    TableSlot(m, s) && IsValid(At(m, s))
  }

  ghost predicate Points(m: Mem, s: Slot, p: nat)
  {
    Counted(m, s) && FrameOf(At(m, s)) == p
  }

  ghost predicate TargetOk(m: Mem, s: Slot)
    requires TableSlot(m, s)
  {
    var t := FrameOf(At(m, s));
    IsTable(At(m, s)) && t < |m.role| &&
    match m.role[s.frame]
    case Root => m.role[t] == Pmd(s)
    case Pmd(_) => m.role[t] == Pte(s)
    case Pte(_) => m.role[t] == Plain || m.role[t] == Boot
    case _ => true
  }

  /** The slot a table frame t is linked from does point at t, and lies in a table one level up. */
  ghost predicate ParentOk(m: Mem, t: nat)
    requires t < |m.role|
  {
    match m.role[t]
    case Pmd(s) => Points(m, s, t) && m.role[s.frame] == Root
    case Pte(s) => Points(m, s, t) && m.role[s.frame].Pmd?
    case _ => true
  }

  /** The slots that point at p: the references pp_ref counts. */
  ghost function Refs(m: Mem, p: nat): set<Slot>
  {
    set f: nat, i: nat | f < |m.frames| && i < ENTRIES && Points(m, Slot(f, i), p) :: Slot(f, i)
  }

  ghost predicate FreeOk(m: Mem)
    requires Sizes(m)
  {
    && (forall i, j :: 0 <= i < j < |m.free| ==> m.free[i] != m.free[j])
    && (forall f {:trigger f in m.free} :: f in m.free ==> f < |m.frames| && m.role[f] == Plain && m.ref[f] == 0)
  }

  ghost predicate KernelRootOk(m: Mem)
    requires Sizes(m)
  {
    && m.kroot < |m.frames| && m.role[m.kroot] == Boot
    && forall i :: SHARED <= i < ENTRIES ==> !IsValid(m.frames[m.kroot][i])
  }

  /** pp_ref is the number of table entries that point at the page, plus its pins. */
  ghost predicate CountOk(m: Mem, p: nat)
    requires Sizes(m) && p < |m.ref|
  {
    && m.ref[p] < 65536
    && m.ref[p] == m.pins[p] + |Refs(m, p)|
    && (m.role[p] == Boot ==> m.pins[p] >= 1)
  }

  ghost predicate Inv(m: Mem)
  {
    && Sizes(m)
    && FreeOk(m)
    && KernelRootOk(m)
    && (forall s {:trigger Counted(m, s)} :: Counted(m, s) ==> TargetOk(m, s))
    && (forall t {:trigger m.role[t]} :: 0 <= t < |m.role| ==> ParentOk(m, t))
    && (forall p {:trigger m.ref[p]} :: 0 <= p < |m.ref| ==> CountOk(m, p))
  }

  // -------- page_init --------

  /** used, used + 1, ..., top - 1 in the order repeated LIST_INSERT_HEAD leaves them. */
  function Descending(used: nat, top: nat): (s: seq<nat>)
    requires used <= top
    ensures |s| == top - used && forall i :: 0 <= i < |s| ==> s[i] == top - 1 - i
  {
    seq(top - used, i requires 0 <= i < top - used => top - 1 - i)
  }

  /** Memory as page_init leaves it: the first `used` frames belong to the kernel for good, the others are free. */
  function InitialMem(frames: seq<Frame>, kroot: nat, used: nat): Mem
    requires used <= |frames|
  {
    Mem(frames,
        seq(|frames|, i => if i < used then 1 else 0),
        Descending(used, |frames|),
        seq(|frames|, i => if i < used then Boot else Plain),
        seq(|frames|, i => if i < used then 1 else 0),
        kroot)
  }

  /** page_init establishes the invariant. */
  lemma InitialInv(frames: seq<Frame>, kroot: nat, used: nat)
    requires kroot < used <= |frames| <= MAX_FRAMES
    requires forall i :: SHARED <= i < ENTRIES ==> !IsValid(frames[kroot][i])
    ensures Inv(InitialMem(frames, kroot, used))
  {
    var m := InitialMem(frames, kroot, used);
    forall s ensures !Counted(m, s) { }
    forall i, j | 0 <= i < j < |m.free| ensures m.free[i] != m.free[j] { }
    forall f | f in m.free ensures f < |m.frames| && m.role[f] == Plain && m.ref[f] == 0 {
      var i :| 0 <= i < |m.free| && m.free[i] == f;
    }
    forall t | 0 <= t < |m.role| ensures ParentOk(m, t) {
      assert m.role[t] == Boot || m.role[t] == Plain;
    }
    forall p | 0 <= p < |m.ref| ensures CountOk(m, p) {
      assert Refs(m, p) == {};
    }
  }
}
