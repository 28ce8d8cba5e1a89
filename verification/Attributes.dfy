/**
 The attribute bits of the descriptors, computed: the boot code or-s them onto
 page-aligned addresses (include/mmu.h:1-21, init/mmu.c, mm/pmap.c).
 */
module Attributes {
  import opened Bits
  import opened Mmu

  /** The attribute bits of a page or table descriptor built with permission bits PTE_V or none. */
  const NORMAL: nat := 0x743

  /** A table descriptor as the boot code writes it, and a page descriptor: address, permission and attribute bits or-ed together. */
  lemma DescriptorValue(f: nat, perm: nat)
    requires f < 0x10_0000_0000 && perm < 4096
    ensures Descriptor(Page2Pa(f), perm) == f * 4096 + Attrs(perm) < TWO64
    ensures Attrs(perm) < 4096 && Attrs(perm) % 4 == 3
  {
    DescriptorParts(f, perm);
    BitOrZero(f);
    assert perm % 4096 == perm && perm / 4096 == 0;
  }

  lemma NormalAttrs()
    ensures Attrs(0) == NORMAL && Attrs(PTE_V) == NORMAL
  {
    NormalBits(3, 0x400, 0x40, 0x300);
    OrAllOf(0, AttrBits());
    OrAllOf(BitOr(0, PTE_V), AttrBits());
  }

  /** Page addresses are multiples of 4096. */
  lemma PageAddress(f: nat)
    ensures Page2Pa(f) == f * 4096
  {
    Shift12(f);
  }

  // -------- the attribute bits, computed --------

  lemma {:induction false} ShlTimes(a: nat, k: nat)
    ensures Shl(a, k) == a * Pow2(k)
  {
    if k == 0 {
    } else {
      ShlTimes(a, k - 1);
    }
  }

  /** An or of numbers given by their bits above and below position k. */
  lemma OrFields(a: nat, b: nat, k: nat, p: nat, a1: nat, a0: nat, b1: nat)
    requires Pow2(k) == p && a0 < p && a == a1 * p + a0 && b == b1 * p
    ensures BitOr(a, b) == BitOr(a1, b1) * p + a0
  {
    OrSplit(k, a1, a0, b1, 0);
    BitOrZero(a0);
    ShlTimes(a1, k); ShlTimes(b1, k); ShlTimes(BitOr(a1, b1), k);
  }

  lemma SmallPowers()
    ensures Pow2(2) == 4 && Pow2(6) == 64 && Pow2(7) == 128 && Pow2(8) == 256
  {
  }

  lemma SmallOrs()
    ensures BitOr(0x10, 1) == 0x11 && BitOr(0, 0x10) == 0x10 && BitOr(4, 3) == 7 && BitOr(8, 1) == 9
    ensures BitOr(0, 1) == 1 && BitOr(0, 3) == 3 && BitOr(1, 3) == 3 && BitOr(0, 0) == 0
  {
  }

  /** Type, access flag and user bits. */
  lemma UserBits(t: nat, af: nat, user: nat)
    requires (t == 3 || t == 1) && af == 0x400 && user == 0x40
    ensures BitOr(BitOr(t, af), user) == 0x440 + t
  {
    SmallPowers();
    SmallOrs();
    OrFields(t, af, 6, 64, 0, t, 0x10);
    OrFields(0x400 + t, user, 6, 64, 0x10, t, 1);
  }

  lemma NormalBits(t: nat, af: nat, user: nat, ish: nat)
    requires t == 3 && af == 0x400 && user == 0x40 && ish == 0x300
    ensures BitOr(BitOr(BitOr(t, af), user), ish) == NORMAL
    ensures BitOr(0, t) == t && BitOr(BitOr(0, PTE_V), t) == t && BitOr(NORMAL, 0) == NORMAL
  {
    SmallPowers();
    SmallOrs();
    UserBits(t, af, user);
    OrFields(0x440 + t, ish, 8, 256, 4, 0x43, 3);
    BitOrZero(NORMAL);
  }

  lemma OrAllOf(x: nat, bits: seq<nat>)
    requires |bits| == 5
    ensures OrAll(x, bits) == BitOr(BitOr(BitOr(BitOr(BitOr(x, bits[0]), bits[1]), bits[2]), bits[3]), bits[4])
  {
    var b1, b2, b3, b4 := bits[1..], bits[1..][1..], bits[1..][1..][1..], bits[1..][1..][1..][1..];
    var x1 := BitOr(x, bits[0]);
    var x2 := BitOr(x1, b1[0]);
    var x3 := BitOr(x2, b2[0]);
    var x4 := BitOr(x3, b3[0]);
    assert OrAll(x, bits) == OrAll(x1, b1) == OrAll(x2, b2) == OrAll(x3, b3) == OrAll(x4, b4);
    assert OrAll(x4, b4) == OrAll(BitOr(x4, b4[0]), b4[1..]);
  }

  lemma OrAllOf4(x: nat, bits: seq<nat>)
    requires |bits| == 4
    ensures OrAll(x, bits) == BitOr(BitOr(BitOr(BitOr(x, bits[0]), bits[1]), bits[2]), bits[3])
  {
    var b1, b2, b3 := bits[1..], bits[1..][1..], bits[1..][1..][1..];
    var x1 := BitOr(x, bits[0]);
    var x2 := BitOr(x1, b1[0]);
    var x3 := BitOr(x2, b2[0]);
    assert OrAll(x, bits) == OrAll(x1, b1) == OrAll(x2, b2) == OrAll(x3, b3);
    assert OrAll(x3, b3) == OrAll(BitOr(x3, b3[0]), b3[1..]);
  }

  // -------- the descriptors of boot_mmu_setup --------

  const RAM: nat := 0x443          // normal memory, writable
  const RAM_RO: nat := 0x4c3       // normal memory, read-only
  const DEVICE: nat := 0x445       // a block of device memory

  function RamBits(): seq<nat> { [TYPE_PAGE, PTE_AF, PTE_NORMAL, PTE_USER] }
  function RamRoBits(): seq<nat> { [TYPE_PAGE, PTE_AF, PTE_NORMAL, PTE_USER, PTE_RO] }
  function DeviceBits(): seq<nat> { [TYPE_BLOCK, PTE_AF, PTE_USER, PTE_DEVICE] }

  lemma BootAttrs()
    ensures OrAll(0, RamBits()) == RAM && OrAll(0, RamRoBits()) == RAM_RO && OrAll(0, DeviceBits()) == DEVICE
  {
    OrAllOf4(0, RamBits());
    OrAllOf(0, RamRoBits());
    OrAllOf4(0, DeviceBits());
    BootBits(3, 1, 0x400, 0x40, 0x80, 4);
  }

  lemma BootBits(page: nat, block: nat, af: nat, user: nat, ro: nat, device: nat)
    requires page == 3 && block == 1 && af == 0x400 && user == 0x40 && ro == 0x80 && device == 4
    ensures BitOr(BitOr(BitOr(BitOr(0, page), af), PTE_NORMAL), user) == RAM
    ensures BitOr(RAM, ro) == RAM_RO
    ensures BitOr(BitOr(BitOr(BitOr(0, block), af), user), device) == DEVICE
  {
    SmallPowers();
    SmallOrs();
    ZeroOr(page);
    ZeroOr(block);
    BitOrZero(BitOr(page, af));
    UserBits(page, af, user);
    UserBits(block, af, user);
    OrFields(RAM, ro, 7, 128, 8, 0x43, 1);
    OrFields(0x440 + block, device, 2, 4, 0x110, 1, 1);
  }

  /** Attribute bits or-ed onto a page address. */
  lemma OrOntoPage(n: nat, bits: seq<nat>)
    requires forall i :: 0 <= i < |bits| ==> bits[i] < 4096
    ensures OrAll(0, bits) < 4096 && OrAll(n * 4096, bits) == n * 4096 + OrAll(0, bits)
  {
    OrAllPage(n, 0, bits);
  }

  lemma Shifted(r: nat, t: nat)
    ensures Shl(r, 21) + Shl(t, 12) == (r * 512 + t) * 4096
    ensures Shl(r, 21) == r * 512 * 4096
  {
    assert Pow2(12) == 4096 by { Pow2Values(); }
    assert Pow2(21) == 512 * Pow2(12) by { Pow2Step(12); }
    ShlTimes(r, 21);
    ShlTimes(t, 12);
  }

  lemma Pow2Step(k: nat)
    ensures Pow2(k + 9) == 512 * Pow2(k)
  {
    Pow2Eight(k);
    Pow2Eight(k + 3);
    Pow2Eight(k + 6);
  }

  lemma Pow2Eight(k: nat)
    ensures Pow2(k + 3) == 8 * Pow2(k)
  {
    assert Pow2(k + 1) == 2 * Pow2(k);
    assert Pow2(k + 2) == 2 * Pow2(k + 1);
  }
}
