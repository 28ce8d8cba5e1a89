/**
 init/main.c: the boot steps in order, from memory that is zero above _pg_dir
 to the first environment about to run.
 */
module Boot {
  import opened Bits
  import opened Mmu
  import opened Memory
  import opened BootTree
  import opened BootMap
  import opened BootMmu
  import opened Kernel
  import opened Isolation
  import opened Syscalls
  import Attributes

  /** The kernel's own address space: the four windows, the boot identity map with its attributes, and nothing else. */
  ghost predicate KernelSpace(frames: seq<Frame>, root: nat, data: nat, a: Arrays)
  {
    forall va: nat {:trigger Translate(frames, root, va)} ::
      var t := Translate(frames, root, va);
      if InPages(va, UPAGES, PAGES_PAGES) then t == Mapped(a.pages + (va - UPAGES), Attributes.NORMAL)
      else if InPages(va, UENVS, ENVS_PAGES) then t == Mapped(a.envs + (va - UENVS), Attributes.NORMAL)
      else if InPages(va, TIMESTACK - BY2PG, 1) then t == Mapped(a.timestack + (va - (TIMESTACK - BY2PG)), Attributes.NORMAL)
      else if InPages(va, KERNEL_SP - BY2PG, 1) then t == Mapped(a.kernelSp + (va - (KERNEL_SP - BY2PG)), Attributes.NORMAL)
      else if va < 0x4020_0000 then
        t.Mapped? && t.pa == va && (IsDevice(t.attrs) <==> va >= 0x3f00_0000) && (IsReadOnly(t.attrs) <==> KERNEL_TEXT <= va < data)
        && t.attrs == (if va >= 0x3f00_0000 then 0x445 else if KERNEL_TEXT <= va < data then 0x4c3 else 0x443)
      else t == Fault
  }

  lemma KernelSpaceIs(f0: seq<Frame>, f1: seq<Frame>, base: nat, data: nat, a: Arrays)
    requires base + TABLE_FRAMES <= |f0| <= MAX_PAGES && BootTables(f0, base, data) && Blank(f0, base)
    requires data % 4096 == 0 && data <= 0x3f00_0000
    requires VmMapped(f0, f1, base, a)
    ensures KernelSpace(f1, base, data, a)
  {
    forall va: nat
      ensures var t := Translate(f1, base, va);
              if InPages(va, UPAGES, PAGES_PAGES) then t == Mapped(a.pages + (va - UPAGES), Attributes.NORMAL)
              else if InPages(va, UENVS, ENVS_PAGES) then t == Mapped(a.envs + (va - UENVS), Attributes.NORMAL)
              else if InPages(va, TIMESTACK - BY2PG, 1) then t == Mapped(a.timestack + (va - (TIMESTACK - BY2PG)), Attributes.NORMAL)
              else if InPages(va, KERNEL_SP - BY2PG, 1) then t == Mapped(a.kernelSp + (va - (KERNEL_SP - BY2PG)), Attributes.NORMAL)
              else if va < 0x4020_0000 then
                t.Mapped? && t.pa == va && (IsDevice(t.attrs) <==> va >= 0x3f00_0000) && (IsReadOnly(t.attrs) <==> KERNEL_TEXT <= va < data)
                && t.attrs == (if va >= 0x3f00_0000 then 0x445 else if KERNEL_TEXT <= va < data then 0x4c3 else 0x443)
              else t == Fault
    {
      BootTranslation(f0, base, data, va);
      var t0 := Translate(f0, base, va);
    }
  }

  /** boot_mmu_setup and aarch64_vm_init. */
  method BuildTables(frames: array<Frame>, pgdir: Word, end: Word, data: Word) returns (freemem: nat, a: Arrays)
    requires frames.Length == MAX_PAGES && end < 0x4000_0000 && data % 4096 == 0 && data <= 0x3f00_0000
    requires Base(pgdir) + TABLE_FRAMES + VM_PAGES < MAX_PAGES && Blank(frames[..], Base(pgdir))
    modifies frames
    ensures KernelSpace(frames[..], Base(pgdir), data, a)
    ensures freemem <= (Base(pgdir) + TABLE_FRAMES + VM_PAGES) * 4096 && freemem > Base(pgdir) * 4096
    ensures forall i :: SHARED <= i < ENTRIES ==> !IsValid(frames[Base(pgdir)][i])
  {
    ghost var base := Base(pgdir);
    freemem := BootMmuSetup(frames, pgdir, end, data);
    ghost var boot := frames[..];
    BootIsTree(boot, base, data);
    VmWindowsOpen(boot, base, data);
    var b := new BootMemory(frames, freemem / 4096 - TABLE_FRAMES, freemem, BootRoles(base, MAX_PAGES));
    a := b.VmInit();
    freemem := b.freemem;
    KernelSpaceIs(boot, frames[..], base, data, a);
  }

  /** The whole of main, up to the first environment: every invariant that the run-level results start from holds. */
  method BootAndStart(frames: array<Frame>, pgdir: Word, end: Word, data: Word, entry: Word, frame: Trapframe) returns (k: KernelObject, a: Arrays, ghost space: seq<Frame>)
    requires frames.Length == MAX_PAGES && end < 0x4000_0000 && data % 4096 == 0 && data <= 0x3f00_0000
    requires Base(pgdir) + TABLE_FRAMES + VM_PAGES + 2 <= MAX_PAGES && Blank(frames[..], Base(pgdir))
    modifies frames
    ensures KernelSpace(space, Base(pgdir), data, a)
    ensures k.Valid() && k.mm.frames == frames && KInv(k.State()) && CanStep(k.State())
  {
    var freemem;
    freemem, a := BuildTables(frames, pgdir, end, data);
    space := frames[..];
    RoundPage(freemem);
    k := new KernelObject(MAX_PAGES, Base(pgdir), frames);
    k.Start(freemem, entry, frame, (freemem + 4095) / 4096);
  }
}
