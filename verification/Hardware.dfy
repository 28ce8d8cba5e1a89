/**
 The address spaces of environments seen by the hardware: the stage 1 walk of
 VMSAv8-64 with a 4K granule and 39-bit addresses (Arm ARM DDI 0487, section
 D5.3; D8.3 in later issues) over the tables mm/pmap.c keeps. What the kernel's
 operations say of its maps is what the processor makes of every address.
 */
module Hardware {
  import opened Bits
  import opened Mmu
  import opened Memory
  import opened PageTable
  import opened BootTree
  import opened Kernel
  import opened Isolation
  import Attributes

  /** An address of the 39-bit space behind a private top-level slot. */
  predicate PrivateAddress(va: nat) { va < VA_LIMIT && Private(VpnOf(va)) }

  /** A map entry as a translation of va. */
  function AsTranslation(leaf: Option<Leaf>, va: nat): Translation
  {
    match leaf
    case None => Translation.Fault
    case Some(l) => Mapped(l.frame * BY2PG + va % BY2PG, l.attrs)
  }

  /** Valid entries below a root are table and page descriptors, never blocks, and name a frame there is. */
  lemma EntryIsLink(m: Mem, s: Slot)
    requires Inv(m) && TableSlot(m, s)
    ensures At(m, s) == Get(m.frames, s)
    ensures IsValid(At(m, s)) <==> IsTable(At(m, s))
    ensures IsValid(At(m, s)) ==> Output(At(m, s)) == FrameOf(At(m, s)) < |m.frames|
  {
    var w := At(m, s);
    if IsValid(w) {
      assert Counted(m, s) && TargetOk(m, s);
      assert FrameOf(w) < 0x10_0000_0000;
    } else {
      TableIsOdd(w);
    }
  }

  lemma TableIsOdd(w: Word)
    ensures IsTable(w) ==> IsValid(w)
    ensures !IsValid(w) ==> w % 4 != 1
  {
  }

  /** The hardware walk ends where pgdir_walk ends. */
  lemma WalkAgrees(m: Mem, r: nat, v: Vpn)
    requires Inv(m) && IsRoot(m, r) && Private(v)
    ensures match LeafSlot(m, r, v)
            case None => Walk(m.frames, r, v).Stop? && !IsValid(Walk(m.frames, r, v).w)
            case Some(s) => Walk(m.frames, r, v) == LeafAt(s) && TableSlot(m, s)
  {
    WalkLevels(m, r, v);
    EntryIsLink(m, Slot(r, v.u));
    if IsValid(At(m, Slot(r, v.u))) {
      EntryIsLink(m, Slot(FrameOf(At(m, Slot(r, v.u))), v.m));
    }
  }

  /** For every private address the hardware's translation is the kernel's map. */
  lemma TranslateAgrees(m: Mem, r: nat, va: nat)
    requires Inv(m) && IsRoot(m, r) && PrivateAddress(va)
    ensures Translate(m.frames, r, va) == AsTranslation(Mapping(m, r, VpnOf(va)), va)
  {
    var v := VpnOf(va);
    SplitIsVpn(va);
    WalkAgrees(m, r, v);
    match LeafSlot(m, r, v)
    case None => TableIsOdd(Walk(m.frames, r, v).w);
    case Some(s) => EntryIsLink(m, s);
  }

  /** ... in the state after every run, for every environment. */
  lemma RunTranslates(s: KState, evs: seq<Event>, e: EnvIx, va: nat)
    requires KInv(s) && SafeRun(s, evs) && PrivateAddress(va)
    ensures var s' := Run(s, evs);
            s'.envs[e].pgdir.Some? ==>
              Translate(s'.mem.frames, RootOf(s', e), va) == AsTranslation(Mapping(s'.mem, RootOf(s', e), VpnOf(va)), va)
  {
    RunKeepsInv(s, evs);
    var s' := Run(s, evs);
    if s'.envs[e].pgdir.Some? { TranslateAgrees(s'.mem, RootOf(s', e), va); }
  }

  // -------- permissions --------

  lemma {:induction false} OrAllTogether(x: nat, y: nat, bits: seq<nat>)
    ensures OrAll(BitOr(x, y), bits) == BitOr(x, OrAll(y, bits))
    decreases |bits|
  {
    if bits == [] {
    } else {
      OrAssoc(x, y, bits[0]);
      OrAllTogether(x, BitOr(y, bits[0]), bits[1..]);
    }
  }

  /** page_insert stores the low twelve permission bits together with the bits of a normal page. */
  lemma LeafAttrsOr(perm: nat)
    ensures LeafAttrs(perm) == BitOr(perm % 4096, Attributes.NORMAL) < 4096
  {
    var l := perm % 4096;
    OrPage(perm / 4096, l, 0, PTE_V);
    var q := BitOr(l, PTE_V);
    assert BitOr(perm, PTE_V) % 4096 == q;
    AttrsParts(q);
    BitOrZero(l);
    OrAllTogether(l, PTE_V, AttrBits());
    ZeroOr(PTE_V);
    assert Attrs(PTE_V) == OrAll(PTE_V, AttrBits());
    Attributes.NormalAttrs();
  }

  /** A permission bit reaches the entry, for each of the twelve positions; bit 7 makes the page read-only. */
  lemma PermissionReaches(perm: nat, k: nat)
    requires k < 12
    ensures BitSet(LeafAttrs(perm), k) <==> BitSet(perm % 4096, k) || k in {0, 1, 6, 8, 9, 10}
    ensures BitSet(LeafAttrs(perm), 7) <==> BitSet(perm % 4096, 7)
  {
    LeafAttrsOr(perm);
    OrSets(perm % 4096, Attributes.NORMAL, k);
    OrSets(perm % 4096, Attributes.NORMAL, 7);
    NormalSets(k);
    NormalSets(7);
  }

  lemma NormalSets(k: nat)
    requires k < 12
    ensures BitSet(Attributes.NORMAL, k) <==> k in {0, 1, 6, 8, 9, 10}
  {
    assert Shr(0x743, 3) == 0xe8;
    assert Shr(0x743, 6) == Shr(0xe8, 3) == 0x1d by { ShrAdd(0x743, 3, 3); }
    assert Shr(0x743, 9) == Shr(0x1d, 3) == 0x3 by { ShrAdd(0x743, 6, 3); }
    if 9 <= k { ShrAdd(0x743, 9, k - 9); } else if 6 <= k { ShrAdd(0x743, 6, k - 6); } else if 3 <= k { ShrAdd(0x743, 3, k - 3); }
  }

  /** What pgdir_walk stores for a new table: its address with the bits of a normal page, and no other bit. */
  lemma TableWordIs(f: nat)
    requires f < MAX_FRAMES
    ensures TableEntry(f) == f * 4096 + 0x743
  {
    Attributes.DescriptorValue(f, 0);
    Attributes.NormalAttrs();
  }

  /** What page_insert stores: the page's address with the low twelve permission bits and those of a normal page, and no other bit. */
  lemma LeafWordIs(p: nat, perm: nat)
    requires p < MAX_FRAMES && KeepsPage(p, perm)
    ensures LeafEntry(p, perm) == p * 4096 + BitOr(perm % 4096, 0x743)
  {
    LeafEntryDecodes(p, perm);
    LeafAttrsOr(perm);
  }

  /** fork and env_create_priority map their pages writable for the user. */
  lemma StackAttrs()
    ensures LeafAttrs(PTE_V) == 0x743
  {
    LeafAttrsOr(PTE_V);
    Attributes.NormalAttrs();
    SmallOrs743();
  }

  lemma SmallOrs743()
    ensures BitOr(1, 0x743) == 0x743
  {
    OrHalves(1, 0x743);
  }

  // -------- what the operations do to translations --------

  /** The addresses of page v translate as `now` says; every other private address of every root translates as before. */
  ghost predicate Retranslates(m: Mem, m': Mem, r: nat, v: Vpn, now: Option<Leaf>)
  {
    forall x: nat, va: nat {:trigger Translate(m'.frames, x, va)} :: IsRoot(m, x) && PrivateAddress(va) ==>
      Translate(m'.frames, x, va) == if x == r && VpnOf(va) == v then AsTranslation(now, va) else Translate(m.frames, x, va)
  }

  lemma ChangesRetranslate(m: Mem, m': Mem, r: nat, v: Vpn, now: Option<Leaf>)
    requires Inv(m) && Inv(m') && SameRoots(m, m') && OnlyChanges(m, m', r, v, now)
    ensures Retranslates(m, m', r, v, now)
  {
    forall x: nat, va: nat | IsRoot(m, x) && PrivateAddress(va)
      ensures Translate(m'.frames, x, va) == if x == r && VpnOf(va) == v then AsTranslation(now, va) else Translate(m.frames, x, va)
    {
      TranslateAgrees(m, x, va);
      TranslateAgrees(m', x, va);
    }
  }

  /** page_insert, for the hardware: the page is seen with the permission asked for, or no translation changes. */
  lemma InsertTranslates(m: Mem, r: nat, pp: nat, v: Vpn, perm: nat)
    requires CanInsert(m, r, pp, v, perm)
    ensures var (m', st) := PageInsert(m, r, pp, v, perm);
            && (st == Ok <==> MissingTables(m, r, v) <= |m.free|)
            && (st == Ok ==> Retranslates(m, m', r, v, Some(Leaf(pp, BitOr(perm % 4096, Attributes.NORMAL)))))
            && (st != Ok ==> Retranslates(m, m', r, v, Mapping(m, r, v)))
  {
    InsertRefines(m, r, pp, v, perm);
    var (m', st) := PageInsert(m, r, pp, v, perm);
    LeafAttrsOr(perm);
    ChangesRetranslate(m, m', r, v, if st == Ok then Some(Leaf(pp, LeafAttrs(perm))) else Mapping(m, r, v));
  }

  /** page_remove, for the hardware: the page faults, and nothing else changes. */
  lemma RemoveTranslates(m: Mem, r: nat, v: Vpn)
    requires Inv(m) && IsRoot(m, r) && Private(v)
    ensures Retranslates(m, PageRemove(m, r, v).0, r, v, None)
  {
    RemoveRefines(m, r, v);
    ChangesRetranslate(m, PageRemove(m, r, v).0, r, v, None);
  }

  /** Isolation, for the hardware: the processor makes the same of a private address of e after every run that does not name its page. */
  lemma IsolationTranslates(s: KState, evs: seq<Event>, e: EnvIx, va: nat)
    requires KInv(s) && SafeRun(s, evs) && Untargeted(s, evs, e, VpnOf(va)) && s.envs[e].pgdir.Some? && PrivateAddress(va)
    ensures var s' := Run(s, evs);
            && s'.envs[e].pgdir == s.envs[e].pgdir
            && Translate(s'.mem.frames, RootOf(s', e), va) == Translate(s.mem.frames, RootOf(s, e), va)
  {
    Isolation.Isolation(s, evs, e, VpnOf(va));
    RunTranslates(s, evs, e, va);
    TranslateAgrees(s.mem, RootOf(s, e), va);
  }
}
