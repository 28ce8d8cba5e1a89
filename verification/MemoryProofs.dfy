/**
 The steps every page-table operation is made of: linking a new table, writing
 a leaf, clearing a leaf, rewriting a leaf. Each keeps the global invariant, and
 each has a known effect on the mappings of every environment.
 */
module MemoryProofs {
  import opened Bits
  import opened Mmu
  import opened Memory

  // -------- reference counting --------

  lemma InRefs(m: Mem, p: nat, s: Slot)
    ensures s in Refs(m, p) <==> Points(m, s, p)
  {
  }

  lemma RefsEqual(m: Mem, m': Mem, p: nat)
    requires forall s :: Points(m, s, p) <==> Points(m', s, p)
    ensures Refs(m, p) == Refs(m', p)
  {
  }

  lemma RefsGain(m: Mem, m': Mem, p: nat, t: Slot)
    requires !Points(m, t, p) && Points(m', t, p)
    requires forall s :: s != t ==> (Points(m, s, p) <==> Points(m', s, p))
    ensures |Refs(m', p)| == |Refs(m, p)| + 1
  {
    forall s ensures s in Refs(m', p) <==> s in Refs(m, p) + {t} {
      InRefs(m, p, s); InRefs(m', p, s);
    }
    InRefs(m, p, t);
    assert Refs(m', p) == Refs(m, p) + {t};
  }

  /** A counted slot t changes what it points at from nothing (or q) to p (or nothing). */
  ghost predicate AddsSlot(m: Mem, m': Mem, t: Slot, p: nat)
  {
    && !Counted(m, t) && Points(m', t, p)
    && (forall s {:trigger Counted(m', s)} {:trigger Counted(m, s)} :: s != t ==> (Counted(m', s) <==> Counted(m, s)))
    && (forall s {:trigger Counted(m, s)} {:trigger At(m', s)} :: Counted(m, s) ==> At(m', s) == At(m, s))
  }

  lemma AddedRefs(m: Mem, m': Mem, t: Slot, p: nat, q: nat)
    requires AddsSlot(m, m', t, p)
    ensures |Refs(m', q)| == |Refs(m, q)| + (if q == p then 1 else 0)
  {
    assert forall s :: s != t ==> (Points(m, s, q) <==> Points(m', s, q));
    if q == p {
      RefsGain(m, m', p, t);
    } else {
      assert !Points(m, t, q) && !Points(m', t, q);
      RefsEqual(m, m', q);
    }
  }

  /** A page with a zero count is mapped by nothing. */
  lemma Unreferenced(m: Mem, p: nat, s: Slot)
    requires Inv(m) && p < |m.ref| && m.ref[p] == 0
    ensures !Points(m, s, p)
  {
    assert CountOk(m, p);
    InRefs(m, p, s);
  }

  // -------- linking a table --------

  ghost predicate CanLink(m: Mem, s: Slot, w: Word)
  {
    && Inv(m) && m.free != []
    && TableSlot(m, s) && !IsValid(At(m, s)) && IsTable(w) && IsValid(w) && FrameOf(w) == m.free[0]
    && (m.role[s.frame] == Root || m.role[s.frame].Pmd?)
  }

  lemma LinkShape(m: Mem, s: Slot, w: Word)
    requires CanLink(m, s, w)
    ensures var m' := Linked(m, s, w);
            var f := m.free[0];
            && f < |m.frames| && m.role[f] == Plain && f != s.frame
            && |m'.frames| == |m.frames| && m'.pins == m.pins && m'.kroot == m.kroot
            && m'.free == m.free[1..] && m'.ref == m.ref[f := 1] && m'.role == m.role[f := ChildRole(m, s)]
            && At(m', s) == w && |m'.role| == |m.role|
            && (forall x {:trigger At(m', x)} :: x != s ==> At(m', x) == if x.frame == f then 0 else At(m, x))
            && (forall g {:trigger m'.frames[g]} :: 0 <= g < |m.frames| && g != f && g != s.frame ==> m'.frames[g] == m.frames[g])
  {
    var f := m.free[0];
    assert f in m.free;
  }

  lemma LinkAdds(m: Mem, s: Slot, w: Word)
    requires CanLink(m, s, w)
    ensures AddsSlot(m, Linked(m, s, w), s, m.free[0])
  {
    LinkShape(m, s, w);
    var m' := Linked(m, s, w);
    var f := m.free[0];
    assert ChildRole(m, s).Pmd? || ChildRole(m, s).Pte?;
    forall x | x != s ensures Counted(m', x) <==> Counted(m, x) {
      if x.frame == f { assert !IsValid(At(m', x)); assert !TableSlot(m, x); }
    }
    forall x | Counted(m, x) ensures At(m', x) == At(m, x) {
      assert x != s && x.frame != f;
    }
  }

  lemma LinkTargets(m: Mem, s: Slot, w: Word)
    requires CanLink(m, s, w)
    ensures forall x {:trigger Counted(Linked(m, s, w), x)} :: Counted(Linked(m, s, w), x) ==> TargetOk(Linked(m, s, w), x)
  {
    LinkShape(m, s, w);
    LinkAdds(m, s, w);
    var m' := Linked(m, s, w);
    var f := m.free[0];
    assert f in m.free;
    forall x | Counted(m', x) ensures TargetOk(m', x) {
      if x != s {
        assert Counted(m, x) && TargetOk(m, x);
        Unreferenced(m, f, x);
        assert FrameOf(At(m, x)) != f;
      }
    }
  }

  lemma LinkParent(m: Mem, s: Slot, w: Word, t: nat)
    requires CanLink(m, s, w) && t < |m.role|
    ensures |Linked(m, s, w).role| == |m.role| && ParentOk(Linked(m, s, w), t)
  {
    LinkShape(m, s, w);
    LinkAdds(m, s, w);
    var m' := Linked(m, s, w);
    if t != m.free[0] {
      assert ParentOk(m, t);
      match m.role[t]
      case Pmd(x) => assert Counted(m, x) && Counted(m', x);
      case Pte(x) => assert Counted(m, x) && Counted(m', x);
      case _ =>
    }
  }

  lemma LinkInv(m: Mem, s: Slot, w: Word)
    requires CanLink(m, s, w)
    ensures Inv(Linked(m, s, w))
  {
    LinkShape(m, s, w);
    LinkAdds(m, s, w);
    LinkTargets(m, s, w);
    var m' := Linked(m, s, w);
    var f := m.free[0];
    forall t | 0 <= t < |m'.role| ensures ParentOk(m', t) { LinkParent(m, s, w, t); }
    assert f in m.free;
    forall p | 0 <= p < |m'.ref| ensures CountOk(m', p) {
      assert CountOk(m, p);
      AddedRefs(m, m', s, f, p);
    }
    forall g | g in m'.free ensures g < |m'.frames| && m'.role[g] == Plain && m'.ref[g] == 0 {
      assert g in m.free && g != f;
    }
  }

  /** Linking an empty table maps nothing and unmaps nothing, for any environment. */
  lemma LinkMapping(m: Mem, s: Slot, w: Word, r: nat, v: Vpn)
    requires CanLink(m, s, w) && IsRoot(m, r) && Private(v)
    ensures IsRoot(Linked(m, s, w), r) && Mapping(Linked(m, s, w), r, v) == Mapping(m, r, v)
  {
    LinkShape(m, s, w);
    var m' := Linked(m, s, w);
    var f := m.free[0];
    var s0 := Slot(r, v.u);
    if s0 == s || !IsValid(At(m, s0)) {
      assert Mapping(m, r, v) == None;
    } else {
      assert Counted(m, s0) && TargetOk(m, s0);
      var s1 := Slot(FrameOf(At(m, s0)), v.m);
      if s1 != s && IsValid(At(m, s1)) {
        assert Counted(m, s1) && TargetOk(m, s1);
        var s2 := Slot(FrameOf(At(m, s1)), v.t);
        assert m.role[s2.frame] == Pte(s1);
        assert s2 != s && s2.frame != f;
      }
    }
  }

  // -------- the path to a leaf --------

  /** The tables on the path to v belong to this root and this v alone. */
  lemma PathRoles(m: Mem, r: nat, v: Vpn)
    requires Inv(m) && IsRoot(m, r) && Private(v) && LeafSlot(m, r, v).Some?
    ensures var s0 := Slot(r, v.u);
            var s1 := Slot(FrameOf(At(m, s0)), v.m);
            var s2 := LeafSlot(m, r, v).value;
            && TableSlot(m, s2) && s2.index == v.t
            && m.role[s2.frame] == Pte(s1) && m.role[s1.frame] == Pmd(s0)
  {
    var s0 := Slot(r, v.u);
    assert Counted(m, s0) && TargetOk(m, s0);
    var s1 := Slot(FrameOf(At(m, s0)), v.m);
    assert Counted(m, s1) && TargetOk(m, s1);
  }

  /** Table trees are disjoint: a leaf slot is reached from one root, for one page number. */
  lemma LeafSlotInjective(m: Mem, r1: nat, v1: Vpn, r2: nat, v2: Vpn)
    requires Inv(m) && IsRoot(m, r1) && IsRoot(m, r2) && Private(v1) && Private(v2)
    requires LeafSlot(m, r1, v1).Some? && LeafSlot(m, r1, v1) == LeafSlot(m, r2, v2)
    ensures r1 == r2 && v1 == v2
  {
    PathRoles(m, r1, v1);
    PathRoles(m, r2, v2);
  }

  ghost predicate IsLeafSlot(m: Mem, s: Slot)
  {
    TableSlot(m, s) && m.role[s.frame].Pte?
  }

  lemma PutInLeaf(m: Mem, s: Slot, w: Word, r: nat, v: Vpn)
    requires Inv(m) && IsLeafSlot(m, s) && IsRoot(m, r) && Private(v)
    ensures LeafSlot(Put(m, s, w), r, v) == LeafSlot(m, r, v)
  {
    var s0 := Slot(r, v.u);
    if IsValid(At(m, s0)) {
      assert Counted(m, s0) && TargetOk(m, s0);
      assert Slot(FrameOf(At(m, s0)), v.m) != s;
    }
  }

  // -------- writing a leaf --------

  /** A page that page_insert may map: not a table, and not on the free list. */
  ghost predicate Mappable(m: Mem, p: nat)
  {
    p < |m.role| && p < |m.ref| && (m.role[p] == Plain || m.role[p] == Boot) && p !in m.free
  }

  ghost predicate CanSet(m: Mem, s: Slot, w: Word)
  {
    && Inv(m) && IsLeafSlot(m, s) && !IsValid(At(m, s))
    && IsTable(w) && IsValid(w) && Mappable(m, FrameOf(w)) && m.ref[FrameOf(w)] < 65535
  }

  function SetLeaf(m: Mem, s: Slot, w: Word): Mem
  {
    Incr(Put(m, s, w), FrameOf(w))
  }

  lemma SetLeafAdds(m: Mem, s: Slot, w: Word)
    requires CanSet(m, s, w)
    ensures AddsSlot(m, SetLeaf(m, s, w), s, FrameOf(w))
  {
  }

  lemma SetLeafInv(m: Mem, s: Slot, w: Word)
    requires CanSet(m, s, w)
    ensures Inv(SetLeaf(m, s, w))
  {
    SetLeafAdds(m, s, w);
    var m' := SetLeaf(m, s, w);
    forall x | Counted(m', x) ensures TargetOk(m', x) {
      if x != s { assert Counted(m, x) && TargetOk(m, x); }
    }
    forall t | 0 <= t < |m'.role| ensures ParentOk(m', t) {
      assert ParentOk(m, t);
      match m.role[t]
      case Pmd(x) => assert Counted(m, x);
      case Pte(x) => assert Counted(m, x);
      case _ =>
    }
    forall q | 0 <= q < |m'.ref| ensures CountOk(m', q) {
      assert CountOk(m, q);
      AddedRefs(m, m', s, FrameOf(w), q);
    }
  }

  lemma SetLeafMapping(m: Mem, s: Slot, w: Word, r: nat, v: Vpn)
    requires CanSet(m, s, w) && IsRoot(m, r) && Private(v)
    ensures Mapping(SetLeaf(m, s, w), r, v) ==
            if LeafSlot(m, r, v) == Some(s) then Some(Leaf(FrameOf(w), w % 4096)) else Mapping(m, r, v)
  {
    PutInLeaf(m, s, w, r, v);
  }

  // -------- clearing a leaf --------

  ghost predicate CanClear(m: Mem, s: Slot)
  {
    Inv(m) && IsLeafSlot(m, s) && IsValid(At(m, s))
  }

  function ClearLeaf(m: Mem, s: Slot): Mem
  {
    var p := FrameOf(At(m, s));
    Put(PageFree(Decr(m, p), p), s, 0)
  }

  lemma ClearLeafRemoves(m: Mem, s: Slot)
    requires CanClear(m, s)
    ensures var m' := ClearLeaf(m, s);
            var p := FrameOf(At(m, s));
            && p < |m.ref| && m.ref[p] >= 1 && AddsSlot(m', m, s, p)
            && m'.ref == m.ref[p := m.ref[p] - 1]
            && m'.free == (if m.ref[p] == 1 then [p] + m.free else m.free)
            && p !in m.free
  {
    var m' := ClearLeaf(m, s);
    var p := FrameOf(At(m, s));
    assert Counted(m, s) && TargetOk(m, s);
    InRefs(m, p, s);
    assert CountOk(m, p);
    assert m.ref[p] >= 1;
    forall x | x != s ensures Counted(m', x) <==> Counted(m, x) {
      assert At(m', x) == At(m, x);
    }
  }

  lemma ClearLeafParents(m: Mem, s: Slot)
    requires CanClear(m, s)
    ensures |ClearLeaf(m, s).role| == |m.role| && forall t {:trigger ParentOk(ClearLeaf(m, s), t)} :: 0 <= t < |m.role| ==> ParentOk(ClearLeaf(m, s), t)
  {
    ClearLeafRemoves(m, s);
    var m' := ClearLeaf(m, s);
    assert Counted(m, s) && TargetOk(m, s);
    forall t | 0 <= t < |m'.role| ensures ParentOk(m', t) {
      assert ParentOk(m, t);
      match m.role[t]
      case Pmd(x) => assert Counted(m, x) && Counted(m', x);
      case Pte(x) => assert Counted(m, x) && Counted(m', x);
      case _ =>
    }
  }

  lemma ClearLeafInv(m: Mem, s: Slot)
    requires CanClear(m, s)
    ensures Inv(ClearLeaf(m, s))
  {
    ClearLeafRemoves(m, s);
    ClearLeafParents(m, s);
    ClearLeafFree(m, s);
    var m' := ClearLeaf(m, s);
    var p := FrameOf(At(m, s));
    forall x | Counted(m', x) ensures TargetOk(m', x) {
      assert Counted(m, x) && TargetOk(m, x);
    }
    forall t | 0 <= t < |m'.role| ensures ParentOk(m', t) { }
    forall q | 0 <= q < |m'.ref| ensures CountOk(m', q) {
      assert CountOk(m, q);
      AddedRefs(m', m, s, p, q);
    }
  }

  lemma ClearLeafFree(m: Mem, s: Slot)
    requires CanClear(m, s)
    ensures Sizes(ClearLeaf(m, s)) && FreeOk(ClearLeaf(m, s))
  {
    ClearLeafRemoves(m, s);
    assert Counted(m, s) && TargetOk(m, s);
    var m' := ClearLeaf(m, s);
    var p := FrameOf(At(m, s));
    InRefs(m, p, s);
    assert CountOk(m, p);
    assert m.ref[p] == 1 ==> m.role[p] == Plain;
  }

  lemma ClearLeafMapping(m: Mem, s: Slot, r: nat, v: Vpn)
    requires CanClear(m, s) && IsRoot(m, r) && Private(v)
    ensures Mapping(ClearLeaf(m, s), r, v) == if LeafSlot(m, r, v) == Some(s) then None else Mapping(m, r, v)
  {
    PutInLeaf(m, s, 0, r, v);
  }

  // -------- rewriting a leaf in place --------

  lemma RewriteLeafSame(m: Mem, s: Slot, w: Word)
    requires CanClear(m, s) && IsTable(w) && IsValid(w) && FrameOf(At(m, s)) == FrameOf(w)
    ensures var m' := Put(m, s, w);
            forall x :: (Counted(m', x) <==> Counted(m, x)) && FrameOf(At(m', x)) == FrameOf(At(m, x))
  {
  }

  lemma RewriteLeafInv(m: Mem, s: Slot, w: Word)
    requires CanClear(m, s) && IsTable(w) && IsValid(w) && FrameOf(At(m, s)) == FrameOf(w)
    ensures Inv(Put(m, s, w))
  {
    RewriteLeafSame(m, s, w);
    var m' := Put(m, s, w);
    forall x | Counted(m', x) ensures TargetOk(m', x) {
      assert Counted(m, x) && TargetOk(m, x);
    }
    forall t | 0 <= t < |m'.role| ensures ParentOk(m', t) {
      assert ParentOk(m, t);
    }
    forall q | 0 <= q < |m'.ref| ensures CountOk(m', q) {
      assert CountOk(m, q);
      RefsEqual(m, m', q);
    }
  }

  lemma RewriteLeafMapping(m: Mem, s: Slot, w: Word, r: nat, v: Vpn)
    requires CanClear(m, s) && IsTable(w) && IsValid(w) && FrameOf(At(m, s)) == FrameOf(w) && IsRoot(m, r) && Private(v)
    ensures Mapping(Put(m, s, w), r, v) ==
            if LeafSlot(m, r, v) == Some(s) then Some(Leaf(FrameOf(w), w % 4096)) else Mapping(m, r, v)
  {
  }
}
