/**
 boot_mmu_setup (init/mmu.c): the nested loops that build the boot tables, and
 the translation they induce.
 */
module BootMmu {
  import opened Bits
  import opened Mmu
  import opened Memory
  import opened Attributes
  import opened BootTree
  import opened BootMap

  const RAM_SLOTS: nat := 504           // 0x3f000000 >> 21
  const TABLE_FRAMES: nat := 507        // pud, pmd, 504 third-level tables, second pmd
  const KERNEL_TEXT: nat := 0x8_0000

  /** The descriptor of physical page n: read-only between the start of the kernel and _data. */
  function PageWord(n: nat, data: nat): nat
  {
    n * 4096 + if KERNEL_TEXT <= n * 4096 < data then RAM_RO else RAM
  }

  function TableWord(f: nat): nat { f * 4096 + NORMAL }
  function BlockWord(r: nat): nat { r * 0x20_0000 + DEVICE }

  /** The third-level table in frame f holds the descriptors of pages [r * 512, r * 512 + 512). */
  ghost predicate PageTable(frames: seq<Frame>, f: nat, r: nat, data: nat)
    requires f < |frames|
  {
    forall t {:trigger frames[f][t]} :: 0 <= t < 512 ==> frames[f][t] == PageWord(r * 512 + t, data)
  }

  /** Slot r of the first second-level table. */
  ghost predicate RamSlot(frames: seq<Frame>, base: nat, data: nat, r: nat)
    requires base + TABLE_FRAMES <= |frames| && r < RAM_SLOTS
  {
    frames[base + 1][r] == TableWord(base + 2 + r) && PageTable(frames, base + 2 + r, r, data)
  }

  /** The first n third-level tables are filled and linked. */
  ghost predicate RamMapped(frames: seq<Frame>, base: nat, data: nat, n: nat)
    requires base + TABLE_FRAMES <= |frames| && n <= RAM_SLOTS
  {
    forall r {:trigger RamSlot(frames, base, data, r)} :: 0 <= r < n ==> RamSlot(frames, base, data, r)
  }

  /** Everything boot_mmu_setup writes, with the tables in frames base, base + 1, ... */
  ghost predicate BootTables(frames: seq<Frame>, base: nat, data: nat)
    requires base + TABLE_FRAMES <= |frames|
  {
    && frames[base][0] == TableWord(base + 1) && frames[base][1] == TableWord(base + 506)
    && RamMapped(frames, base, data, RAM_SLOTS)
    && (forall r {:trigger frames[base + 1][r]} :: RAM_SLOTS <= r < 512 ==> frames[base + 1][r] == BlockWord(r))
    && frames[base + 506][0] == BlockWord(512)
  }

  /** What it leaves alone. */
  ghost predicate Untouched(before: seq<Frame>, after: seq<Frame>, base: nat)
    requires base + TABLE_FRAMES <= |before| == |after|
  {
    && (forall f {:trigger after[f]} :: 0 <= f < |after| && !(base <= f < base + TABLE_FRAMES) ==> after[f] == before[f])
    && (forall i {:trigger after[base][i]} :: 2 <= i < 512 ==> after[base][i] == before[base][i])
    && (forall i {:trigger after[base + 506][i]} :: 1 <= i < 512 ==> after[base + 506][i] == before[base + 506][i])
  }

  /** The descriptor of the page at address i. */
  method PageDescriptor(i: nat, data: nat, ghost n: nat) returns (w: Word)
    requires i == n * 4096 && n < 0x4_0000
    ensures w == PageWord(n, data)
  {
    BootAttrs();
    OrOntoPage(n, RamBits());
    OrOntoPage(n, RamRoBits());
    w := if KERNEL_TEXT <= i < data then OrAll(i, RamRoBits()) else OrAll(i, RamBits());
  }

  /** `(r << 21) | TYPE_BLOCK | PTE_AF | PTE_USER | PTE_DEVICE` */
  method BlockDescriptor(r: nat) returns (w: Word)
    requires r <= 512
    ensures w == BlockWord(r)
  {
    BootAttrs();
    Shifted(r, 0);
    OrOntoPage(r * 512, DeviceBits());
    w := OrAll(Shl(r, 21), DeviceBits());
  }

  /** `freemem | TYPE_PAGE | PTE_AF | PTE_USER | PTE_ISH | PTE_NORMAL` */
  method TableDescriptor(freemem: nat, ghost f: nat) returns (w: Word)
    requires freemem == f * 4096 && f < 0x4_0000
    ensures w == TableWord(f)
  {
    NormalAttrs();
    DescriptorValue(f, 0);
    PageAddress(f);
    w := Descriptor(freemem, 0);
  }

  /** The inner loop: one third-level table, reached through its descriptor. */
  method FillTable(frames: array<Frame>, pmd: nat, r: nat, data: nat, ghost f: nat)
    requires pmd < frames.Length && f < frames.Length && pmd != f && r < RAM_SLOTS && f < 0x4_0000
    requires frames[pmd][r] == TableWord(f)
    modifies frames
    ensures PageTable(frames[..], f, r, data)
    ensures forall g :: 0 <= g < frames.Length && g != f ==> frames[g] == old(frames[g])
  {
    var t := 0;
    while t < 512
      invariant 0 <= t <= 512
      invariant forall j {:trigger frames[f][j]} :: 0 <= j < t ==> frames[f][j] == PageWord(r * 512 + j, data)
      invariant forall g :: 0 <= g < frames.Length && g != f ==> frames[g] == old(frames[g])
    {
      Shifted(r, t);
      var i := Shl(r, 21) + Shl(t, 12);
      var pa := TableAddress(frames[pmd][r]);
      var w := PageDescriptor(i, data, r * 512 + t);
      frames[pa / 4096] := frames[pa / 4096][t := w];
      t := t + 1;
    }
  }

  /** The outer loop over the 504 slots below the devices; freemem runs along. */
  method MapRam(frames: array<Frame>, base: nat, data: nat) returns (freemem: nat)
    requires base + TABLE_FRAMES <= frames.Length <= MAX_PAGES
    modifies frames
    ensures freemem == (base + 506) * 4096
    ensures RamMapped(frames[..], base, data, RAM_SLOTS)
    ensures forall g :: 0 <= g < frames.Length && !(base + 1 <= g < base + 506) ==> frames[g] == old(frames[g])
  {
    var pmd := base + 1;
    freemem := (base + 2) * 4096;
    var r := 0;
    while r < RAM_SLOTS
      invariant 0 <= r <= RAM_SLOTS && freemem == (base + 2 + r) * 4096
      invariant RamMapped(frames[..], base, data, r)
      invariant forall g :: 0 <= g < frames.Length && !(base + 1 <= g < base + 2 + r) ==> frames[g] == old(frames[g])
    {
      ghost var before := frames[..];
      var w := TableDescriptor(freemem, base + 2 + r);
      frames[pmd] := frames[pmd][r := w];
      freemem := freemem + BY2PG;
      FillTable(frames, pmd, r, data, base + 2 + r);
      RamGrows(before, frames[..], base, data, r, w);
      r := r + 1;
    }
  }

  lemma RamGrows(before: seq<Frame>, after: seq<Frame>, base: nat, data: nat, r: nat, w: Word)
    requires base + TABLE_FRAMES <= |before| == |after| && r < RAM_SLOTS
    requires RamMapped(before, base, data, r)
    requires after[base + 1] == before[base + 1][r := w] && w == TableWord(base + 2 + r) && PageTable(after, base + 2 + r, r, data)
    requires forall g {:trigger after[g]} :: base + 1 < g < base + 2 + r ==> after[g] == before[g]
    ensures RamMapped(after, base, data, r + 1)
  {
    forall q | 0 <= q < r + 1 ensures RamSlot(after, base, data, q) {
      if q < r {
        assert RamSlot(before, base, data, q);
        assert after[base + 2 + q] == before[base + 2 + q];
      }
    }
  }

  /** The loop over the device blocks. */
  method MapDevices(frames: array<Frame>, pmd: nat)
    requires pmd < frames.Length
    modifies frames
    ensures forall i :: 0 <= i < 512 ==> frames[pmd][i] == if i < RAM_SLOTS then old(frames[pmd][i]) else BlockWord(i)
    ensures forall g :: 0 <= g < frames.Length && g != pmd ==> frames[g] == old(frames[g])
  {
    var r := RAM_SLOTS;
    while r < 512
      invariant RAM_SLOTS <= r <= 512
      invariant forall i :: 0 <= i < 512 ==> frames[pmd][i] == if RAM_SLOTS <= i < r then BlockWord(i) else old(frames[pmd][i])
      invariant forall g :: 0 <= g < frames.Length && g != pmd ==> frames[g] == old(frames[g])
    {
      var w := BlockDescriptor(r);
      frames[pmd] := frames[pmd][r := w];
      r := r + 1;
    }
  }

  /** Writes outside the slots and tables of RAM. */
  lemma RamKept(before: seq<Frame>, after: seq<Frame>, base: nat, data: nat)
    requires base + TABLE_FRAMES <= |before| == |after| && RamMapped(before, base, data, RAM_SLOTS)
    requires after[base + 1][..RAM_SLOTS] == before[base + 1][..RAM_SLOTS]
    requires forall g {:trigger after[g]} :: base + 1 < g < base + 506 ==> after[g] == before[g]
    ensures RamMapped(after, base, data, RAM_SLOTS)
  {
    forall r | 0 <= r < RAM_SLOTS ensures RamSlot(after, base, data, r) {
      assert RamSlot(before, base, data, r);
      assert after[base + 1][r] == after[base + 1][..RAM_SLOTS][r] == before[base + 1][..RAM_SLOTS][r];
      assert after[base + 2 + r] == before[base + 2 + r];
    }
  }

  method RoundedUp(a: Word) returns (r: nat)
    requires a + 4095 < TWO64
    ensures r == Base(a) * 4096
  {
    RoundPage(a);
    r := Round(a, BY2PG);
  }

  method PudSlot(va: Word) returns (i: nat)
    ensures i == va / 0x4000_0000 % 512
  {
    Indices(va);
    i := Pudx(va);
  }

  /** The frame of the first table: _pg_dir, rounded up. */
  function Base(pgdir: Word): nat { (pgdir + 4095) / 4096 }

  /** boot_mmu_setup; `end` is the linker's _end, which is also the value of _pg_dir. */
  method BootMmuSetup(frames: array<Frame>, pgdir: Word, end: Word, data: Word) returns (freemem: nat)
    requires Base(pgdir) + TABLE_FRAMES <= frames.Length <= MAX_PAGES && end < 0x4000_0000
    modifies frames
    ensures freemem == (Base(pgdir) + TABLE_FRAMES) * 4096
    ensures BootTables(frames[..], Base(pgdir), data)
    ensures Untouched(old(frames[..]), frames[..], Base(pgdir))
  {
    ghost var base := Base(pgdir);
    freemem := RoundedUp(pgdir);
    var pud := freemem / 4096;
    freemem := freemem + BY2PG;
    var slot := PudSlot(end);
    var w := TableDescriptor(freemem, base + 1);
    frames[pud] := frames[pud][slot := w];
    var pmd := freemem / 4096;
    freemem := MapRam(frames, pud, data);
    ghost var ram := frames[..];
    MapDevices(frames, pmd);
    slot := PudSlot(0x4000_0000);
    w := TableDescriptor(freemem, base + 506);
    frames[pud] := frames[pud][slot := w];
    pmd := freemem / 4096;
    freemem := freemem + BY2PG;
    w := BlockDescriptor(512);
    frames[pmd] := frames[pmd][0 := w];
    RamKept(ram, frames[..], base, data);
  }

  // -------- the translation --------

  predicate IsDevice(attrs: nat) { attrs / 4 % 8 == 1 }        // AttrIndx
  predicate IsReadOnly(attrs: nat) { attrs / 0x80 % 2 == 1 }   // AP[2]

  lemma TableWordParts(f: nat)
    requires f < MAX_PAGES
    ensures TableWord(f) < TWO64 && IsTable(TableWord(f)) && Output(TableWord(f)) == FrameOf(TableWord(f)) == f
  {
    EntryParts(TableWord(f), f, NORMAL);
  }

  lemma PageWordParts(n: nat, data: nat)
    requires n < MAX_PAGES
    ensures PageWord(n, data) < TWO64 && IsTable(PageWord(n, data)) && Output(PageWord(n, data)) == n
    ensures PageWord(n, data) % 4096 == if KERNEL_TEXT <= n * 4096 < data then RAM_RO else RAM
  {
  }

  lemma BlockWordParts(r: nat)
    requires r <= 512
    ensures BlockWord(r) < TWO64 && BlockWord(r) % 4 == 1 && Output(BlockWord(r)) / 512 == r && BlockWord(r) % 4096 == DEVICE
  {
  }

  /** Below the devices: identity, read-only exactly in the kernel text. */
  lemma RamIdentity(frames: seq<Frame>, base: nat, data: nat, va: nat)
    requires base + TABLE_FRAMES <= |frames| <= MAX_PAGES && BootTables(frames, base, data) && va < 0x3f00_0000
    ensures Translate(frames, base, va) == Mapped(va, if KERNEL_TEXT <= va / 4096 * 4096 < data then RAM_RO else RAM)
  {
    var v, n := Split(va), va / 4096;
    assert v == Vpn(0, n / 512, n % 512) by { assert va / 0x20_0000 == n / 512; }
    TableWordParts(base + 1);
    TableWordParts(base + 2 + v.m);
    assert RamSlot(frames, base, data, v.m);
    assert frames[base + 2 + v.m][v.t] == PageWord(v.m * 512 + v.t, data);
    PageWordParts(n, data);
    assert Walk(frames, base, v) == LeafAt(Slot(base + 2 + v.m, v.t));
  }

  /** The device blocks: identity. */
  lemma DeviceIdentity(frames: seq<Frame>, base: nat, data: nat, va: nat)
    requires base + TABLE_FRAMES <= |frames| <= MAX_PAGES && BootTables(frames, base, data) && 0x3f00_0000 <= va < 0x4020_0000
    ensures Translate(frames, base, va) == Mapped(va, DEVICE)
  {
    var v, r := Split(va), va / 0x20_0000;
    assert v.u == r / 512 && v.m == r % 512 by { assert va / 0x4000_0000 == r / 512; }
    TableWordParts(base + 1);
    TableWordParts(base + 506);
    BlockWordParts(r);
    assert Walk(frames, base, v) == Stop(2, BlockWord(r));
    assert Output(BlockWord(r)) / 512 * 0x20_0000 + va % 0x20_0000 == va;
  }

  /** The parts of the first and last table that boot_mmu_setup leaves alone hold nothing. */
  ghost predicate Blank(frames: seq<Frame>, base: nat)
    requires base + TABLE_FRAMES <= |frames|
  {
    && (forall i {:trigger frames[base][i]} :: 2 <= i < 512 ==> frames[base][i] == 0)
    && (forall i {:trigger frames[base + 506][i]} :: 1 <= i < 512 ==> frames[base + 506][i] == 0)
  }

  lemma NothingElse(frames: seq<Frame>, base: nat, data: nat, va: nat)
    requires base + TABLE_FRAMES <= |frames| <= MAX_PAGES && BootTables(frames, base, data) && Blank(frames, base) && va >= 0x4020_0000
    ensures Translate(frames, base, va) == Fault
  {
  }

  lemma SamePageBounds(va: nat, data: nat)
    requires data % 4096 == 0
    ensures KERNEL_TEXT <= va / 4096 * 4096 < data <==> KERNEL_TEXT <= va < data
  {
  }

  lemma AttrsMeaning()
    ensures !IsDevice(RAM) && !IsDevice(RAM_RO) && IsDevice(DEVICE)
    ensures !IsReadOnly(RAM) && IsReadOnly(RAM_RO) && !IsReadOnly(DEVICE)
  {
  }

  /**
   The boot translation: the identity on [0, 0x40200000) and nothing above;
   device memory from 0x3f000000 up, read-only on [0x80000, _data).
   */
  lemma BootTranslation(frames: seq<Frame>, base: nat, data: nat, va: nat)
    requires base + TABLE_FRAMES <= |frames| <= MAX_PAGES && BootTables(frames, base, data) && Blank(frames, base)
    requires data % 4096 == 0 && data <= 0x3f00_0000
    ensures var t := Translate(frames, base, va);
            if va < 0x4020_0000 then
              && t.Mapped? && t.pa == va
              && (IsDevice(t.attrs) <==> va >= 0x3f00_0000)
              && (IsReadOnly(t.attrs) <==> KERNEL_TEXT <= va < data)
              && t.attrs == (if va >= 0x3f00_0000 then 0x445 else if KERNEL_TEXT <= va < data then 0x4c3 else 0x443)
            else t == Fault
  {
    AttrsMeaning();
    if va < 0x3f00_0000 {
      RamIdentity(frames, base, data, va);
      SamePageBounds(va, data);
    } else if va < 0x4020_0000 {
      DeviceIdentity(frames, base, data, va);
    } else {
      NothingElse(frames, base, data, va);
    }
  }

  // -------- the tables as a tree --------

  /** Which frame is which table: all of them are different. */
  function BootRole(base: nat, f: nat): Role
  {
    if f == base then Root
    else if f == base + 1 then Pmd(Slot(base, 0))
    else if f == base + 506 then Pmd(Slot(base, 1))
    else if base + 2 <= f < base + 506 then Pte(Slot(base + 1, f - base - 2))
    else Boot
  }

  function BootRoles(base: nat, n: nat): (r: seq<Role>)
    ensures |r| == n && forall f :: 0 <= f < n ==> r[f] == BootRole(base, f)
  {
    seq(n, f requires 0 <= f < n => BootRole(base, f))
  }

  lemma BootIsTree(frames: seq<Frame>, base: nat, data: nat)
    requires base + TABLE_FRAMES <= |frames| <= MAX_PAGES && BootTables(frames, base, data) && Blank(frames, base)
    ensures Tree(frames, BootRoles(base, |frames|), base, base + TABLE_FRAMES)
  {
    var role := BootRoles(base, |frames|);
    TableWordParts(base + 1);
    TableWordParts(base + 506);
    forall s | Upper(role, s) ensures ChildOk(frames, role, s) {
      if s.frame == base + 1 {
        if s.index < RAM_SLOTS {
          assert RamSlot(frames, base, data, s.index);
          TableWordParts(base + 2 + s.index);
        } else {
          BlockWordParts(s.index);
        }
      } else if s.frame == base + 506 && s.index == 0 {
        BlockWordParts(512);
      }
    }
  }

  /** Between the boot blocks and the end of the second gigabyte, the second-level table exists and is empty. */
  lemma WindowIsOpen(frames: seq<Frame>, base: nat, data: nat, va: nat, n: nat)
    requires base + TABLE_FRAMES <= |frames| <= MAX_PAGES && BootTables(frames, base, data) && Blank(frames, base)
    requires va % 4096 == 0 && 0x4020_0000 <= va && va + n * 4096 <= 0x8000_0000
    ensures WindowOpen(frames, base, va, n)
  {
    TableWordParts(base + 506);
    forall k: nat | k < n ensures IsTable(Get(frames, Slot(base, PageOf(va, k).u))) && NoBlock(frames, base, PageOf(va, k)) {
      var a := va + k * 4096;
      assert 0x4020_0000 <= a < 0x8000_0000;
      SecondGigabyte(a);
      assert Walk(frames, base, PageOf(va, k)) == Stop(2, 0);
    }
  }

  lemma SecondGigabyte(a: nat)
    requires 0x4020_0000 <= a < 0x8000_0000
    ensures Split(a).u == 1 && Split(a).m >= 1
  {
  }

  lemma VmWindowsOpen(frames: seq<Frame>, base: nat, data: nat)
    requires base + TABLE_FRAMES <= |frames| <= MAX_PAGES && BootTables(frames, base, data) && Blank(frames, base)
    ensures WindowsOpen(frames, base)
  {
    WindowIsOpen(frames, base, data, UPAGES, PAGES_PAGES);
    WindowIsOpen(frames, base, data, UENVS, ENVS_PAGES);
    WindowIsOpen(frames, base, data, TIMESTACK - BY2PG, 1);
    WindowIsOpen(frames, base, data, KERNEL_SP - BY2PG, 1);
  }
}
