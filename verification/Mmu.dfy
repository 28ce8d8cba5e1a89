/**
 include/mmu.h and include/pmap.h: rounding, virtual-address indices and the
 packed descriptors of the VMSAv8-64 format with a 4K granule (Arm ARM
 DDI 0487, section D5.3; D8.3 in later issues).
 */
module Mmu {
  import opened Bits

  const BY2PG: nat := 4096
  const ENTRIES: nat := 512            // words in a 4K frame

  const PTE_V: nat := 0x1
  const TYPE_PAGE: nat := 0x3
  const TYPE_BLOCK: nat := 0x1
  const PTE_NORMAL: nat := 0x0         // 0 << 2
  const PTE_DEVICE: nat := 0x4         // 1 << 2
  const PTE_USER: nat := 0x40          // 1 << 6
  const PTE_RO: nat := 0x80            // 1 << 7
  const PTE_ISH: nat := 0x300          // 3 << 8
  const PTE_AF: nat := 0x400           // 1 << 10

  /** ROUND, in 64-bit arithmetic. */
  function Round(a: Word, n: nat): nat
    requires 0 < n <= TWO64
  {
    BitAnd((a + n - 1) % TWO64, TWO64 - n)
  }

  function RoundDown(a: Word, n: nat): nat
    requires 0 < n <= TWO64
  {
    BitAnd(a, TWO64 - n)
  }

  function Pudx(va: nat): nat { BitAnd(Shr(va, 30), 0x1ff) }
  function Pmdx(va: nat): nat { BitAnd(Shr(va, 21), 0x1ff) }
  function Ptex(va: nat): nat { BitAnd(Shr(va, 12), 0x1ff) }
  function PteAddr(pte: Word): nat { BitAnd(pte, TWO64 - 0x1000) }
  function Ppn(pa: nat): nat { Shr(pa, 12) }
  function Page2Pa(ppn: nat): nat { Shl(ppn, 12) }

  /** A page number of the 39-bit address space, split into its three table indices. */
  datatype Vpn = Vpn(u: nat, m: nat, t: nat) {
    predicate Ok() { u < ENTRIES && m < ENTRIES && t < ENTRIES }
    function Number(): nat { u * 0x4_0000 + m * 0x200 + t }
    function Address(): nat { Number() * BY2PG }
  }

  function VpnOf(va: nat): Vpn
  {
    Vpn(Pudx(va), Pmdx(va), Ptex(va))
  }

  lemma Indices(va: nat)
    ensures Pudx(va) == va / 0x4000_0000 % 512
    ensures Pmdx(va) == va / 0x20_0000 % 512
    ensures Ptex(va) == va / 0x1000 % 512
  {
    Pow2Values();
    Shift30(va); Shift21(va); Shift12(va);
    AndMask(Shr(va, 30), 9); AndMask(Shr(va, 21), 9); AndMask(Shr(va, 12), 9);
    Shift9(Shr(va, 30)); Shift9(Shr(va, 21)); Shift9(Shr(va, 12));
  }

  /** The three indices together are exactly the page number modulo 2^27. */
  lemma VpnNumber(va: nat)
    ensures VpnOf(va).Ok()
    ensures VpnOf(va).Number() == va / BY2PG % 0x800_0000
  {
    Indices(va);
    SplitPageNumber(va / 0x1000);
    assert va / 0x20_0000 == va / 0x1000 / 512 && va / 0x4000_0000 == va / 0x1000 / 512 / 512;
  }

  lemma SplitPageNumber(n: nat)
    ensures n % 0x800_0000 == n / 512 / 512 % 512 * 0x4_0000 + n / 512 % 512 * 0x200 + n % 512
  {
    var q := n / 512;
    var r := q / 512;
    assert n == 0x800_0000 * (r / 512) + (r % 512 * 0x4_0000 + q % 512 * 0x200 + n % 512);
  }

  lemma VpnInjective(v: Vpn, w: Vpn)
    requires v.Ok() && w.Ok() && v.Number() == w.Number()
    ensures v == w
  {
    NumberParts(v);
    NumberParts(w);
  }

  lemma NumberParts(v: Vpn)
    requires v.Ok()
    ensures v.u == v.Number() / 0x4_0000 && v.t == v.Number() % 0x200 && v.m * 0x200 == v.Number() - v.u * 0x4_0000 - v.t
  {
    Leading(v.u, 0x4_0000, v.m * 0x200 + v.t);
    Leading(v.u * 0x200 + v.m, 0x200, v.t);
  }

  /** Quotient and remainder of a number written as such. */
  lemma Leading(q: nat, b: nat, r: nat)
    requires r < b
    ensures (q * b + r) / b == q && (q * b + r) % b == r
  {
    var d := (q * b + r) / b;
    Apart(d, q, b);
    Apart(q, d, b);
  }

  lemma Apart(x: nat, y: nat, b: nat)
    ensures x < y ==> x * b + b <= y * b
  {
    if x < y {
      var d := y - x - 1;
      assert y * b == x * b + b + d * b;
    }
  }

  /** Two addresses share a slot of a three-level table exactly when they lie on the same page modulo 2^39. */
  lemma SamePage(va: nat, vb: nat)
    ensures VpnOf(va) == VpnOf(vb) <==> va / BY2PG % 0x800_0000 == vb / BY2PG % 0x800_0000
  {
    VpnNumber(va); VpnNumber(vb);
    if va / BY2PG % 0x800_0000 == vb / BY2PG % 0x800_0000 { VpnInjective(VpnOf(va), VpnOf(vb)); }
  }

  lemma AddressRoundTrip(v: Vpn)
    requires v.Ok()
    ensures VpnOf(v.Address()) == v
  {
    NumberOfAddress(v, v.Address());
  }

  lemma NumberOfAddress(v: Vpn, va: nat)
    requires v.Ok() && va == v.Number() * BY2PG
    ensures VpnOf(va) == v
  {
    VpnNumber(va);
    NumberBound(v);
    PageOfAddress(v.Number(), va);
    VpnInjective(VpnOf(va), v);
  }

  lemma NumberBound(v: Vpn)
    requires v.Ok()
    ensures v.Number() < 0x800_0000
  {
  }

  lemma PageOfAddress(n: nat, va: nat)
    requires n < 0x800_0000 && va == n * BY2PG
    ensures va / BY2PG % 0x800_0000 == n
  {
  }

  /**
   ROUND to a power of two gives the least multiple that is not below a,
   exactly unless the sum wraps; then it gives 0.
   */
  lemma RoundUp(a: Word, k: nat)
    requires k <= 64
    ensures Pow2(k) <= TWO64
    ensures a <= Round(a, Pow2(k)) <==> a + Pow2(k) - 1 < TWO64
    ensures a + Pow2(k) - 1 < TWO64 ==>
              var c := Shr(a + Pow2(k) - 1, k);
              Round(a, Pow2(k)) == Shl(c, k) && forall d: nat :: a <= Shl(d, k) ==> c <= d
    ensures a + Pow2(k) - 1 >= TWO64 ==> Round(a, Pow2(k)) == 0
  {
    if a + Pow2(k) - 1 < TWO64 {
      var c := Shr(a + Pow2(k) - 1, k);
      RoundShifts(a, k);
      forall d: nat | a <= Shl(d, k) ensures c <= d {
        if d < c { ShlLess(d, c, k); }
      }
    } else {
      RoundWraps(a, k);
    }
  }

  lemma RoundWraps(a: Word, k: nat)
    requires k <= 64 && a + Pow2(k) - 1 >= TWO64
    ensures 0 < a && Pow2(k) <= TWO64 && Round(a, Pow2(k)) == 0
  {
    Pow2Grows(k, 64);
    Pow2Values();
    var b := WrappedSum(a, Pow2(k));
    ClearLow(b, k);
    ShrSmall(b, k);
    ShlZero(k);
  }

  lemma WrappedSum(a: Word, n: nat) returns (b: Word)
    requires 1 <= n <= TWO64 && a + n - 1 >= TWO64
    ensures Round(a, n) == BitAnd(b, TWO64 - n) && b < n && 0 < a
  {
    b := a + n - 1 - TWO64;
    assert (a + n - 1) % TWO64 == b;
  }

  lemma PlainSum(a: Word, n: nat) returns (b: Word)
    requires 1 <= n <= TWO64 && a + n - 1 < TWO64
    ensures Round(a, n) == BitAnd(b, TWO64 - n) && b == a + n - 1
  {
    b := a + n - 1;
  }

  lemma {:induction false} Pow2Grows(j: nat, k: nat)
    requires j <= k
    ensures Pow2(j) <= Pow2(k)
    decreases k
  {
    if j == k {
    } else {
      Pow2Grows(j, k - 1);
    }
  }

  lemma {:induction false} ShrSmall(b: nat, k: nat)
    requires b < Pow2(k)
    ensures Shr(b, k) == 0
  {
    if k == 0 {
    } else {
      ShrSmall(b / 2, k - 1);
    }
  }

  lemma {:induction false} ShlZero(k: nat)
    ensures Shl(0, k) == 0
  {
    if k == 0 {
    } else {
      ShlZero(k - 1);
    }
  }

  lemma RoundShifts(a: Word, k: nat)
    requires k <= 64 && a + Pow2(k) - 1 < TWO64
    ensures Pow2(k) <= TWO64
    ensures var c := Shr(a + Pow2(k) - 1, k); Round(a, Pow2(k)) == Shl(c, k) && a <= Shl(c, k) < a + Pow2(k)
  {
    Pow2Grows(k, 64);
    Pow2Values();
    var b := PlainSum(a, Pow2(k));
    ClearLow(b, k);
    ShiftFloor(b, k);
  }

  lemma ClearLow(b: Word, k: nat)
    requires k <= 64
    ensures Pow2(k) <= TWO64 && BitAnd(b, TWO64 - Pow2(k)) == Shl(Shr(b, k), k)
  {
    Pow2Values();
    AndClear(b, k, 64);
  }

  lemma ShlLess(d: nat, c: nat, k: nat)
    requires d < c
    ensures Shl(d, k) + Pow2(k) <= Shl(c, k)
  {
    ShlStep(d, k);
    ShlMonotone(c, d + 1, k);
  }

  lemma {:induction false} ShlStep(a: nat, k: nat)
    ensures Shl(a + 1, k) == Shl(a, k) + Pow2(k)
  {
    if k == 0 {
    } else {
      ShlStep(a, k - 1);
    }
  }

  lemma ClearPageOffset(b: Word)
    ensures BitAnd(b, TWO64 - 4096) == b / 4096 * 4096
  {
    Pow2Values();
    AndClear(b, 12, 64);
    Shift12(b); Shift12(b / 4096);
  }

  lemma RoundPage(a: Word)
    requires a + 4095 < TWO64
    ensures Round(a, BY2PG) == (a + 4095) / 4096 * 4096
  {
    ClearPageOffset(a + 4095);
  }

  lemma RoundDownPage(a: Word)
    ensures RoundDown(a, BY2PG) == a / 4096 * 4096
  {
    ClearPageOffset(a);
  }

  lemma PteAddrIsFrame(w: Word)
    ensures PteAddr(w) == Page2Pa(Ppn(w)) == w / 4096 * 4096 && Ppn(w) == w / 4096
  {
    ClearPageOffset(w);
    Shift12(w); Shift12(w / 4096);
  }

  // Descriptors

  predicate Valid(w: Word) { BitAnd(w, PTE_V) != 0 }

  lemma ValidIsOdd(w: Word)
    ensures Valid(w) <==> w % 2 == 1
  {
    AndHalves(w, 1);
  }

  /** `pa | perm | TYPE_PAGE | PTE_AF | PTE_USER | PTE_ISH | PTE_NORMAL` */
  function Descriptor(pa: nat, perm: nat): nat
  {
    OrAll(BitOr(pa, perm), AttrBits())
  }

  function OrAll(x: nat, bits: seq<nat>): nat
    decreases |bits|
  {
    if bits == [] then x else OrAll(BitOr(x, bits[0]), bits[1..])
  }

  /** The attribute bits a descriptor ends up with. */
  function Attrs(perm: nat): nat { Descriptor(0, perm) }

  lemma OrPage(high: nat, low: nat, b1: nat, b0: nat)
    requires low < 4096 && b0 < 4096
    ensures BitOr(low, b0) < 4096
    ensures BitOr(high * 4096 + low, b1 * 4096 + b0) == BitOr(high, b1) * 4096 + BitOr(low, b0)
  {
    Pow2Values();
    OrSplit(12, high, low, b1, b0);
    Shift12(high); Shift12(b1); Shift12(BitOr(high, b1));
  }

  /** Attribute bits below the page offset leave the frame number alone and accumulate in the offset. */
  lemma {:induction false} OrAllPage(p: nat, low: nat, bits: seq<nat>)
    requires low < 4096 && forall i | 0 <= i < |bits| :: bits[i] < 4096
    ensures OrAll(low, bits) < 4096
    ensures OrAll(p * 4096 + low, bits) == p * 4096 + OrAll(low, bits)
    decreases |bits|
  {
    if bits == [] {
    } else {
      OrPage(p, low, 0, bits[0]);
      OrAllPage(p, BitOr(low, bits[0]), bits[1..]);
    }
  }

  lemma OrType(x: nat, b: nat)
    requires x % 4 == 3 || b % 4 == 3
    ensures BitOr(x, b) % 4 == 3
  {
    OrHalves(x, b);
    OrHalves(x / 2, b / 2);
    FromBits(BitOr(x, b), if x % 4 == 3 then x else b);
  }

  lemma FromBits(w: nat, x: nat)
    requires x % 4 == 3 && (x % 2 == 1 ==> w % 2 == 1) && (x / 2 % 2 == 1 ==> w / 2 % 2 == 1)
    ensures w % 4 == 3
  {
  }

  lemma {:induction false} OrAllKeepsType(x: nat, bits: seq<nat>)
    requires x % 4 == 3 || (bits != [] && bits[0] % 4 == 3)
    ensures OrAll(x, bits) % 4 == 3
    decreases |bits|
  {
    if bits == [] {
    } else {
      OrType(x, bits[0]);
      OrAllKeepsType(BitOr(x, bits[0]), bits[1..]);
    }
  }

  function AttrBits(): seq<nat> { [TYPE_PAGE, PTE_AF, PTE_USER, PTE_ISH, PTE_NORMAL] }

  lemma AttrBitsSmall()
    ensures forall i :: 0 <= i < |AttrBits()| ==> AttrBits()[i] < 4096
    ensures AttrBits() != [] && AttrBits()[0] % 4 == 3
  {
  }

  lemma AttrsParts(l: nat)
    requires l < 4096
    ensures Attrs(l) == OrAll(l, AttrBits()) < 4096 && Attrs(l) % 4 == 3
  {
    ZeroOr(l);
    AttrBitsSmall();
    OrAllPage(0, l, AttrBits());
    OrAllKeepsType(l, AttrBits());
  }

  /** What a descriptor decodes to, for any permission word: high permission bits land in the frame number. */
  lemma DescriptorParts(p: nat, perm: nat)
    ensures Attrs(perm % 4096) < 4096 && Attrs(perm % 4096) % 4 == 3
    ensures Descriptor(Page2Pa(p), perm) == BitOr(p, perm / 4096) * 4096 + Attrs(perm % 4096)
  {
    OrPageAddress(p, perm);
    DescriptorFrom(Page2Pa(p), perm, BitOr(p, perm / 4096), perm % 4096);
  }

  lemma DescriptorFrom(pa: nat, perm: nat, high: nat, low: nat)
    requires BitOr(pa, perm) == high * 4096 + low && low < 4096
    ensures Attrs(low) < 4096 && Attrs(low) % 4 == 3
    ensures Descriptor(pa, perm) == high * 4096 + Attrs(low)
  {
    AttrsParts(low);
    AttrBitsSmall();
    OrOnto(BitOr(pa, perm), high, low, AttrBits(), Attrs(low));
  }

  lemma OrOnto(x: nat, high: nat, low: nat, bits: seq<nat>, a: nat)
    requires x == high * 4096 + low && low < 4096 && a == OrAll(low, bits)
    requires forall i | 0 <= i < |bits| :: bits[i] < 4096
    ensures OrAll(x, bits) == high * 4096 + a
  {
    OrAllPage(high, low, bits);
  }

  lemma OrPageAddress(p: nat, perm: nat)
    ensures BitOr(Page2Pa(p), perm) == BitOr(p, perm / 4096) * 4096 + perm % 4096
  {
    Shift12(p);
    OrPage(p, 0, perm / 4096, perm % 4096);
    ZeroOr(perm % 4096);
  }

  lemma ZeroOr(l: nat)
    ensures BitOr(0, l) == l
  {
  }

  /** A descriptor keeps its frame exactly when the permission bits above the page offset are bits of the frame number. */
  lemma DescriptorKeepsFrame(p: nat, perm: nat)
    requires Descriptor(Page2Pa(p), perm) < TWO64
    ensures Ppn(Descriptor(Page2Pa(p), perm)) == p <==> BitAnd(p, perm / 4096) == perm / 4096
  {
    DescriptorParts(p, perm);
    PteAddrIsFrame(Descriptor(Page2Pa(p), perm));
    OrAbsorbs(p, perm / 4096);
  }

  lemma BitOrZero(p: nat)
    ensures BitOr(p, 0) == p
  {
  }
}
