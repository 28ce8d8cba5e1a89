/**
 mm/pmap.c in place: the page allocator and the page-table operations on an
 array of frames, an array of reference counts and the intrusive free list.
 Each method computes the operation of the same name in Memory.
 */
module Pmap {
  import opened Bits
  import opened Mmu
  import opened Memory
  import opened MemoryProofs
  import opened PageTable
  import opened AddressSpace
  import opened Hardware
  import BootTree
  import Queue

  /** Every table the walk for v follows lies in physical memory. */
  ghost predicate Walkable(m: Mem, root: nat, v: Vpn)
  {
    var w0 := At(m, Slot(root, v.u));
    && root < |m.frames|
    && (IsValid(w0) ==>
          var w1 := At(m, Slot(FrameOf(w0), v.m));
          FrameOf(w0) < |m.frames| && (IsValid(w1) ==> FrameOf(w1) < |m.frames|))
  }

  /** The page mapped at v, if any, is not on the free list already. */
  ghost predicate Removable(m: Mem, root: nat, v: Vpn)
  {
    PageLookup(m, root, v).Found? ==> PageLookup(m, root, v).page !in m.free
  }

  lemma InvWalkable(m: Mem, root: nat, v: Vpn)
    requires Inv(m) && IsRoot(m, root) && Private(v)
    ensures Walkable(m, root, v) && Removable(m, root, v)
  {
    WalkLevels(m, root, v);
    LookupRefines(m, root, v);
    match PageLookup(m, root, v) {
      case Found(p, e) => ClearLeafRemoves(m, e);
      case _ =>
    }
  }

  lemma InvInsertable(m: Mem, root: nat, v: Vpn)
    requires Inv(m) && IsRoot(m, root) && Private(v)
    ensures Walkable(PageRemove(m, root, v).0, root, v)
  {
    RemoveRefines(m, root, v);
    InvWalkable(PageRemove(m, root, v).0, root, v);
  }

  class PhysMemory {
    const npage: nat
    const kroot: nat                  // frame of _pg_dir
    const frames: array<Frame>
    const ref: array<nat>             // pages[i].pp_ref
    const freeList: Queue.List        // page_free_list over pages[i].pp_link
    ghost var role: seq<Role>
    ghost var pins: seq<nat>

    ghost predicate Valid()
      reads this, frames, ref, freeList, freeList.next, freeList.prev
    {
      && frames.Length == npage && ref.Length == npage && |role| == npage && |pins| == npage
      && npage <= MAX_FRAMES
      && freeList.Valid() && freeList.next.Length == npage
      && forall i {:trigger ref[i]} :: 0 <= i < npage ==> ref[i] < 65536
    }

    ghost function State(): Mem
      reads this, frames, ref, freeList
    {
      Mem(frames[..], ref[..], freeList.elems, role, pins, kroot)
    }

    constructor (npage: nat, kroot: nat, frames: array<Frame>)
      requires frames.Length == npage <= MAX_FRAMES
      ensures Valid() && this.npage == npage && this.kroot == kroot && this.frames == frames
      ensures fresh(ref) && fresh(freeList) && fresh(freeList.next) && fresh(freeList.prev)
    {
      this.npage := npage;
      this.kroot := kroot;
      this.frames := frames;
      ref := new nat[npage](_ => 0);
      freeList := new Queue.List(npage);
      role := seq(npage, _ => Plain);
      pins := seq(npage, _ => 0);
    }

    /** page_init; `freemem` is the end of the memory the boot code has used. */
    method PageInit(freemem: Word)
      requires frames.Length == npage && ref.Length == npage && npage <= MAX_FRAMES
      requires freeList.next.Length == npage && freeList.prev.Length == npage
      requires freemem + BY2PG - 1 < TWO64 && Round(freemem, BY2PG) / BY2PG <= npage
      modifies this`role, this`pins, ref, freeList, freeList.next, freeList.prev
      ensures Valid() && State() == InitialMem(frames[..], kroot, Round(freemem, BY2PG) / BY2PG)
    {
      freeList.Clear();
      var used := Round(freemem, BY2PG) / BY2PG;
      CountInUse(used);
      FreeFrom(used);
      role, pins := InitialMem(frames[..], kroot, used).role, InitialMem(frames[..], kroot, used).pins;
    }

    /** The first loop of page_init. */
    method CountInUse(used: nat)
      requires used <= npage == ref.Length
      modifies ref
      ensures forall i :: 0 <= i < used ==> ref[i] == 1
    {
      for loop := 0 to used
        invariant forall i :: 0 <= i < loop ==> ref[i] == 1
      {
        ref[loop] := 1;
      }
    }

    /** The second loop of page_init. */
    method FreeFrom(used: nat)
      requires used <= npage == ref.Length == freeList.next.Length
      requires freeList.Valid() && freeList.elems == []
      modifies ref, freeList, freeList.next, freeList.prev
      ensures freeList.Valid() && freeList.elems == Descending(used, npage)
      ensures forall i :: 0 <= i < npage ==> ref[i] == if i < used then old(ref[i]) else 0
    {
      for loop := used to npage
        invariant freeList.Valid() && freeList.elems == Descending(used, loop)
        invariant forall i :: 0 <= i < npage ==> ref[i] == if used <= i < loop then 0 else old(ref[i])
      {
        ref[loop] := 0;
        freeList.InsertHead(loop);
        assert Descending(used, loop + 1) == [loop] + Descending(used, loop);
      }
    }

    lemma FreeInRange(p: nat)
      requires Valid() && p in freeList.elems
      ensures p < npage
    {
      var k :| 0 <= k < |freeList.elems| && freeList.elems[k] == p;
      assert Queue.LinkedAt(freeList.next[..], freeList.prev[..], freeList.elems, k);
    }

    /** `*entry` */
    method Load(s: Slot) returns (w: Word)
      requires Valid() && s.frame < npage && s.index < ENTRIES
      ensures w == At(State(), s)
    {
      w := frames[s.frame][s.index];
    }

    /** `*entry = w` */
    method Store(s: Slot, w: Word)
      requires Valid() && s.frame < npage && s.index < ENTRIES
      modifies frames
      ensures Valid() && State() == Put(old(State()), s, w)
    {
      frames[s.frame] := frames[s.frame][s.index := w];
    }

    /** bzero of a whole frame: the word loop of lib/helpfunct.c covers it. */
    method ZeroFrameAt(f: nat)
      requires Valid() && f < npage
      modifies frames
      ensures Valid() && frames[..] == Zeroed(old(frames[..]), f)
    {
      var b, max := 0, BY2PG;
      while b + 7 < max
        invariant 0 <= b <= max && b % 8 == 0
        invariant forall i :: 0 <= i < b / 8 ==> frames[f][i] == 0
        invariant forall g :: 0 <= g < npage && g != f ==> frames[g] == old(frames[g])
      {
        frames[f] := frames[f][b / 8 := 0];
        b := b + 8;
      }
      assert frames[f] == ZeroFrame();
    }

    /** page_alloc */
    method PageAlloc() returns (st: Status, page: nat)
      requires Valid()
      modifies frames, freeList, freeList.next, freeList.prev
      ensures Valid()
      ensures old(freeList.elems) == [] ==> st == NoMem && State() == old(State())
      ensures old(freeList.elems) != [] ==> st == Ok && page == old(freeList.elems)[0] && page < npage && State() == TakeFree(old(State()))
    {
      st, page := NoMem, 0;
      if freeList.first != Queue.Null {
        page := freeList.first.id;
        FreeInRange(page);
        freeList.Remove(page);
        ZeroFrameAt(page);
        st := Ok;
      }
    }

    /** page_free */
    method PageFree(p: nat)
      requires Valid() && p < npage && (ref[p] == 0 ==> p !in freeList.elems)
      modifies freeList, freeList.next, freeList.prev
      ensures Valid() && State() == Memory.PageFree(old(State()), p)
    {
      if ref[p] > 0 {
        return;
      }
      freeList.InsertHead(p);
    }

    /** `pp->pp_ref++` on an unsigned short */
    method IncRef(p: nat)
      requires Valid() && p < npage
      modifies ref
      ensures Valid() && State() == Incr(old(State()), p)
    {
      ref[p] := (ref[p] + 1) % 65536;
    }

    method DecRef(p: nat)
      requires Valid() && p < npage
      modifies ref
      ensures Valid() && State() == Decr(old(State()), p)
    {
      ref[p] := (ref[p] + 65535) % 65536;
    }

    /**
     One level of pgdir_walk: the table behind the descriptor at s, found or,
     with create, newly allocated and linked. Both levels of the source repeat
     these lines.
     */
    method TableBehind(s: Slot, create: bool) returns (st: Status, table: nat)
      requires Valid() && s.frame < npage && s.index < ENTRIES
      modifies this`role, frames, ref, freeList, freeList.next, freeList.prev
      ensures Valid()
      ensures var m := old(State());
              if IsValid(At(m, s)) then st == Ok && State() == m && table == FrameOf(At(m, s))
              else if !create || m.free == [] then st == NoMem && State() == m
              else st == Ok && State() == Grow(m, s) && table == m.free[0] == FrameOf(At(State(), s)) && IsValid(At(State(), s))
                   && table < npage && forall i {:trigger At(State(), Slot(table, i))} ::
                        IsValid(At(State(), Slot(table, i))) ==> FrameOf(At(State(), Slot(table, i))) == table
    {
      ghost var m := State();
      var w := Load(s);
      ValidIsOdd(w);
      if Mmu.Valid(w) {
        PteAddrIsFrame(w);
        return Ok, PteAddr(w) / BY2PG;
      }
      if !create {
        return NoMem, 0;
      }
      st, table := PageAlloc();
      if st != Ok {
        return;
      }
      Store(s, TableEntry(table));
      IncRef(table);
      role := role[table := ChildRole(m, s)];
      TableEntryDecodes(table);
    }

    /** pgdir_walk; a NULL `*ppte` is None. */
    method PgdirWalk(pud: nat, va: nat, create: bool) returns (st: Status, ppte: Option<Slot>)
      requires Valid() && Walkable(State(), pud, VpnOf(va))
      modifies this`role, frames, ref, freeList, freeList.next, freeList.prev
      ensures Valid()
      ensures WalkResult(State(), st, ppte) == Memory.PgdirWalk(old(State()), pud, VpnOf(va), create)
      ensures ppte.Some? ==> ppte.value.frame < npage && ppte.value.index < ENTRIES
      ensures !create ==> State() == old(State())
    {
      VpnNumber(va);
      var pmd, pte;
      st, pmd := TableBehind(Slot(pud, Pudx(va)), create);
      if st != Ok {
        return NoMem, None;
      }
      st, pte := TableBehind(Slot(pmd, Pmdx(va)), create);
      if st != Ok {
        return NoMem, None;
      }
      return Ok, Some(Slot(pte, Ptex(va)));
    }

    /** page_lookup; Invalid stands for the panic of pa2page. */
    method PageLookup(pud: nat, va: nat) returns (r: LookupResult)
      requires Valid() && Walkable(State(), pud, VpnOf(va))
      modifies this`role, frames, ref, freeList, freeList.next, freeList.prev
      ensures Valid() && State() == old(State())
      ensures r == Memory.PageLookup(State(), pud, VpnOf(va))
      ensures r.Found? ==> r.page < npage && r.entry.frame < npage && r.entry.index < ENTRIES
    {
      var st, pte := PgdirWalk(pud, va, false);
      if pte == None {
        return Missing;
      }
      var w := Load(pte.value);
      ValidIsOdd(w);
      PteAddrIsFrame(w);
      if !Mmu.Valid(w) {
        return Missing;
      }
      if Ppn(w) >= npage {
        return Invalid;
      }
      return Found(Ppn(w), pte.value);
    }

    /** page_remove */
    method PageRemove(pud: nat, va: nat) returns (st: Status)
      requires Valid() && Walkable(State(), pud, VpnOf(va)) && Removable(State(), pud, VpnOf(va))
      modifies this`role, frames, ref, freeList, freeList.next, freeList.prev
      ensures Valid() && (State(), st) == Memory.PageRemove(old(State()), pud, VpnOf(va))
    {
      var r := PageLookup(pud, va);
      match r {
        case Missing => return Ok;
        case Invalid => return Panic;
        case Found(page, entry) =>
          DecRef(page);
          if ref[page] == 0 {
            PageFree(page);
          }
          Store(entry, 0);
          return Ok;
      }
    }

    /** page_insert */
    method PageInsert(pud: nat, pp: nat, va: nat, perm: nat) returns (st: Status)
      requires Valid() && pp < npage && Walkable(State(), pud, VpnOf(va)) && Removable(State(), pud, VpnOf(va))
      requires Walkable(Memory.PageRemove(State(), pud, VpnOf(va)).0, pud, VpnOf(va))
      modifies this`role, frames, ref, freeList, freeList.next, freeList.prev
      ensures Valid() && (State(), st) == Memory.PageInsert(old(State()), pud, pp, VpnOf(va), perm)
    {
      var r := PageLookup(pud, va);
      match r {
        case Invalid => return Panic;
        case Found(page, entry) =>
          if page == pp {
            Store(entry, LeafEntry(pp, perm));
            return Ok;
          }
          st := PageRemove(pud, va);
        case Missing =>
      }
      var entry;
      st, entry := PgdirWalk(pud, va, true);
      if st != Ok {
        return NoMem;
      }
      Store(entry.value, LeafEntry(pp, perm));
      IncRef(pp);
      return Ok;
    }

    // -------- building address spaces --------

    /** The copy of _pg_dir into a new page directory (lib/env.c:92-94). */
    method CopyKernelRoot(dst: nat)
      requires Valid() && kroot < npage && dst < npage
      modifies frames
      ensures Valid() && State() == CopyFrame(old(State()), kroot, dst)
    {
      var i := 0;
      while i < 512
        invariant 0 <= i <= 512
        invariant forall j :: 0 <= j < i ==> frames[dst][j] == old(frames[kroot][j])
        invariant forall j :: i <= j < 512 ==> frames[dst][j] == old(frames[dst][j])
        invariant forall g :: 0 <= g < npage && g != dst ==> frames[g] == old(frames[g])
      {
        frames[dst] := frames[dst][i := frames[kroot][i]];
        i := i + 1;
      }
      assert frames[dst] == old(frames[kroot]);
      assert frames[..] == old(frames[..])[dst := old(frames[kroot])];
    }

    /** The memory side of env_setup_vm. */
    method EnvSetupVm() returns (st: Status, page: nat)
      requires Valid() && kroot < npage
      modifies this`role, this`pins, frames, ref, freeList, freeList.next, freeList.prev
      ensures Valid()
      ensures old(freeList.elems) == [] ==> st == NoMem && State() == old(State())
      ensures old(freeList.elems) != [] ==> st == Ok && page == old(freeList.elems)[0] && page < npage && State() == SetupVm(old(State()))
    {
      st, page := PageAlloc();
      if st == Ok {
        IncRef(page);
        CopyKernelRoot(page);
        role, pins := role[page := Root], pins[page := 1];
      }
    }

    /** The page the processor reads at a private address: the hardware walk, descriptor types included. It is the page the kernel's map names. */
    method ReadPage(pud: nat, va: nat) returns (page: Option<nat>)
      requires Valid() && Inv(State()) && IsRoot(State(), pud) && Private(VpnOf(va))
      ensures page == (match Mapping(State(), pud, VpnOf(va)) case None => None case Some(leaf) => Some(leaf.frame))
    {
      ghost var m, v := State(), VpnOf(va);
      WalkLevels(m, pud, v);
      EntryIsLink(m, Slot(pud, v.u));
      var w := Load(Slot(pud, Pudx(va)));
      if !IsTable(w) {
        return None;
      }
      var s1 := Slot(BootTree.Output(w), Pmdx(va));
      EntryIsLink(m, s1);
      w := Load(s1);
      if !IsTable(w) {
        return None;
      }
      var s2 := Slot(BootTree.Output(w), Ptex(va));
      EntryIsLink(m, s2);
      w := Load(s2);
      return if IsTable(w) then Some(BootTree.Output(w)) else None;
    }

    /** bcopy of a whole page: the word loop of lib/helpfunct.c covers it. */
    method CopyPage(src: nat, dst: nat)
      requires Valid() && src < npage && dst < npage
      modifies frames
      ensures Valid() && State() == CopyFrame(old(State()), src, dst)
    {
      var b, max := 0, BY2PG;
      while b + 7 < max
        invariant 0 <= b <= max && b % 8 == 0
        invariant forall j :: 0 <= j < b / 8 ==> frames[dst][j] == old(frames[src][j])
        invariant forall j :: b / 8 <= j < 512 ==> frames[dst][j] == old(frames[dst][j])
        invariant forall g :: 0 <= g < npage && g != dst ==> frames[g] == old(frames[g])
      {
        frames[dst] := frames[dst][b / 8 := frames[src][b / 8]];
        b := b + 8;
      }
      assert frames[dst] == old(frames[src]);
      assert frames[..] == old(frames[..])[dst := old(frames[src])];
    }
  }
}
