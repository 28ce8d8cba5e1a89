/**
 The main results about mm/pmap.c: lookup, insertion and removal on the
 three-level tree implement lookup, update and deletion on a finite map, for
 one environment without disturbing any other; the global memory invariant
 survives them; and insertion fails exactly when tables are missing that the
 free list cannot supply.
 */
module PageTable {
  import opened Bits
  import opened Mmu
  import opened Memory
  import opened MemoryProofs

  // -------- what stays put --------

  /** A frame holding data in use: nothing but its owner may write it. */
  ghost predicate Holds(m: Mem, f: nat)
    requires Sizes(m)
  {
    f < |m.frames| && (m.role[f] == Boot || (m.role[f] == Plain && f !in m.free))
  }

  ghost predicate SameRoots(m: Mem, m': Mem)
  {
    forall r {:trigger IsRoot(m, r)} {:trigger IsRoot(m', r)} :: IsRoot(m, r) <==> IsRoot(m', r)
  }

  /** Data frames keep their contents and their role, roots keep their shared slots. */
  ghost predicate DataKept(m: Mem, m': Mem)
    requires Sizes(m) && Sizes(m')
  {
    && |m'.frames| == |m.frames| && m'.pins == m.pins && m'.kroot == m.kroot
    && SameRoots(m, m')
    && (forall f: nat {:trigger Holds(m, f)} :: Holds(m, f) ==> m'.frames[f] == m.frames[f] && m'.role[f] == m.role[f])
    && (forall r: nat, i: nat {:trigger m'.frames[r][i]} :: IsRoot(m, r) && i < SHARED ==> m'.frames[r][i] == m.frames[r][i])
  }

  ghost predicate MappingsKept(m: Mem, m': Mem)
  {
    forall r, v {:trigger Mapping(m', r, v)} :: IsRoot(m, r) && Private(v) ==> Mapping(m', r, v) == Mapping(m, r, v)
  }

  /** The effect of growing tables: frames leave the front of the free list, all else in use stays as it was. */
  ghost predicate Grown(m: Mem, m': Mem, k: nat)
    requires Sizes(m) && Sizes(m')
  {
    && DataKept(m, m') && MappingsKept(m, m')
    && k <= |m.free| && m'.free == m.free[k..]
    && (forall p {:trigger m'.ref[p]} :: 0 <= p < |m.ref| && p !in m.free[..k] ==> m'.ref[p] == m.ref[p] && m'.role[p] == m.role[p])
  }

  lemma LinkGrown(m: Mem, s: Slot, w: Word)
    requires CanLink(m, s, w)
    ensures Inv(Linked(m, s, w)) && Grown(m, Linked(m, s, w), 1)
  {
    LinkInv(m, s, w);
    LinkShape(m, s, w);
    var m' := Linked(m, s, w);
    assert m.free[0] in m.free;
    forall f: nat | Holds(m, f) ensures m'.frames[f] == m.frames[f] && m'.role[f] == m.role[f] {
      assert f != m.free[0] && f != s.frame;
    }
    forall r, v | IsRoot(m, r) && Private(v) ensures Mapping(m', r, v) == Mapping(m, r, v) {
      LinkMapping(m, s, w, r, v);
    }
    forall r: nat, i: nat | IsRoot(m, r) && i < SHARED ensures m'.frames[r][i] == m.frames[r][i] {
      assert At(m', Slot(r, i)) == At(m, Slot(r, i));
    }
  }

  lemma GrownCompose(m: Mem, m1: Mem, m2: Mem, j: nat, k: nat)
    requires Inv(m) && Inv(m1) && Inv(m2) && Grown(m, m1, j) && Grown(m1, m2, k)
    ensures Grown(m, m2, j + k)
  {
    forall f: nat | Holds(m, f) ensures m2.frames[f] == m.frames[f] && m2.role[f] == m.role[f] {
      assert Holds(m1, f);
    }
    assert m.free[..j + k] == m.free[..j] + m1.free[..k];
    forall p | 0 <= p < |m.ref| && p !in m.free[..j + k] ensures m2.ref[p] == m.ref[p] && m2.role[p] == m.role[p] {
      assert m1.ref[p] == m.ref[p];
    }
    forall r, v | IsRoot(m, r) && Private(v) ensures Mapping(m2, r, v) == Mapping(m, r, v) {
      assert Mapping(m1, r, v) == Mapping(m, r, v);
    }
    forall r: nat, i: nat | IsRoot(m, r) && i < SHARED ensures m2.frames[r][i] == m.frames[r][i] {
      assert m1.frames[r][i] == m.frames[r][i];
    }
  }

  // -------- pgdir_walk --------

  function Min(a: nat, b: nat): nat { if a < b then a else b }

  /** One level of the walk: the table behind slot s exists, or is grown, or cannot be had. */
  lemma EnsureTable(m: Mem, s: Slot)
    requires Inv(m) && TableSlot(m, s) && !IsValid(At(m, s)) && (m.role[s.frame] == Root || m.role[s.frame].Pmd?)
    requires m.free != []
    ensures var m' := Grow(m, s);
            && Inv(m') && Grown(m, m', 1) && Counted(m', s)
            && At(m', s) == TableEntry(m.free[0])
            && forall x: Slot {:trigger At(m', x)} :: x.frame == FrameOf(At(m', s)) ==> At(m', x) == 0
  {
    var f := m.free[0];
    assert f in m.free;
    TableEntryDecodes(f);
    LinkGrown(m, s, TableEntry(f));
    LinkShape(m, s, TableEntry(f));
  }

  lemma WalkLevels(m: Mem, r: nat, v: Vpn)
    requires Inv(m) && IsRoot(m, r) && Private(v)
    ensures TableSlot(m, Slot(r, v.u))
    ensures IsValid(At(m, Slot(r, v.u))) ==>
              var s1 := Slot(FrameOf(At(m, Slot(r, v.u))), v.m);
              TableSlot(m, s1) && m.role[s1.frame].Pmd?
    ensures LeafSlot(m, r, v).Some? ==> IsLeafSlot(m, LeafSlot(m, r, v).value)
  {
    var s0 := Slot(r, v.u);
    if IsValid(At(m, s0)) {
      assert Counted(m, s0) && TargetOk(m, s0);
      if LeafSlot(m, r, v).Some? { PathRoles(m, r, v); }
    }
  }

  /**
   pgdir_walk with create set: it maps and unmaps nothing, takes frames off the
   free list one per missing table, and fails exactly when the list is too
   short. It may then have linked one empty table.
   */
  lemma WalkCreates(m: Mem, r: nat, v: Vpn)
    requires Inv(m) && IsRoot(m, r) && Private(v)
    ensures var w := PgdirWalk(m, r, v, true);
            var need := MissingTables(m, r, v);
            && Inv(w.mem) && Grown(m, w.mem, Min(need, |m.free|))
            && (w.status == Ok || w.status == NoMem)
            && (w.status == NoMem <==> |m.free| < need)
            && (w.status == Ok ==> w.entry == LeafSlot(w.mem, r, v) && w.entry.Some? && IsLeafSlot(w.mem, w.entry.value))
            && (w.status == NoMem ==> w.entry == None)
  {
    WalkLevels(m, r, v);
    var s0 := Slot(r, v.u);
    if IsValid(At(m, s0)) {
      WalkSecond(m, r, v);
    } else if m.free != [] {
      EnsureTable(m, s0);
      var m1 := Grow(m, s0);
      var s1 := Slot(FrameOf(At(m1, s0)), v.m);
      assert At(m1, s1) == 0;
      WalkSecond(m1, r, v);
      var w := PgdirWalk(m, r, v, true);
      assert w == PgdirWalk(m1, r, v, true);
      GrownCompose(m, m1, w.mem, 1, Min(1, |m1.free|));
    }
  }

  lemma WalkSecond(m: Mem, r: nat, v: Vpn)
    requires Inv(m) && IsRoot(m, r) && Private(v) && IsValid(At(m, Slot(r, v.u)))
    ensures var w := PgdirWalk(m, r, v, true);
            var need := MissingTables(m, r, v);
            && Inv(w.mem) && Grown(m, w.mem, Min(need, |m.free|))
            && (w.status == Ok || w.status == NoMem)
            && (w.status == NoMem <==> |m.free| < need)
            && (w.status == Ok ==> w.entry == LeafSlot(w.mem, r, v) && w.entry.Some? && IsLeafSlot(w.mem, w.entry.value))
            && (w.status == NoMem ==> w.entry == None)
  {
    WalkLevels(m, r, v);
    var s0 := Slot(r, v.u);
    var s1 := Slot(FrameOf(At(m, s0)), v.m);
    if !IsValid(At(m, s1)) && m.free != [] {
      EnsureTable(m, s1);
      var m2 := Grow(m, s1);
      SlotKept(m, s1, s0);
      WalkLevels(m2, r, v);
    }
  }

  lemma SlotKept(m: Mem, s: Slot, x: Slot)
    requires Inv(m) && TableSlot(m, s) && !IsValid(At(m, s)) && (m.role[s.frame] == Root || m.role[s.frame].Pmd?)
    requires m.free != [] && Counted(m, x)
    ensures At(Grow(m, s), x) == At(m, x)
  {
    var f := m.free[0];
    assert f in m.free;
    TableEntryDecodes(f);
    LinkShape(m, s, TableEntry(f));
  }

  // -------- page_lookup --------

  /** page_lookup is lookup in the abstract address space, and never panics. */
  lemma LookupRefines(m: Mem, r: nat, v: Vpn)
    requires Inv(m) && IsRoot(m, r) && Private(v)
    ensures match PageLookup(m, r, v)
            case Missing => Mapping(m, r, v) == None
            case Invalid => false
            case Found(p, e) =>
              && Mapping(m, r, v) == Some(Leaf(p, At(m, e) % 4096))
              && LeafSlot(m, r, v) == Some(e) && CanClear(m, e) && FrameOf(At(m, e)) == p
  {
    WalkLevels(m, r, v);
    if LeafSlot(m, r, v).Some? && IsValid(At(m, LeafSlot(m, r, v).value)) {
      assert Counted(m, LeafSlot(m, r, v).value) && TargetOk(m, LeafSlot(m, r, v).value);
    }
  }

  // -------- page_remove --------

  /** Everything but the mapping of page v below root r is as it was. */
  ghost predicate OnlyChanges(m: Mem, m': Mem, r: nat, v: Vpn, now: Option<Leaf>)
  {
    forall x, y {:trigger Mapping(m', x, y)} :: IsRoot(m, x) && Private(y) ==>
      Mapping(m', x, y) == if x == r && y == v then now else Mapping(m, x, y)
  }

  lemma LeafWriteKeepsData(m: Mem, m': Mem, s: Slot, w: Word)
    requires Inv(m) && Sizes(m') && IsLeafSlot(m, s)
    requires m'.frames == Stored(m.frames, s, w) && m'.role == m.role && m'.pins == m.pins && m'.kroot == m.kroot
    ensures DataKept(m, m')
  {
  }

  lemma DataKeptCompose(m: Mem, m1: Mem, m2: Mem)
    requires Sizes(m) && Sizes(m1) && Sizes(m2) && DataKept(m, m1) && DataKept(m1, m2)
    requires forall f: nat {:trigger Holds(m, f)} :: Holds(m, f) ==> Holds(m1, f)
    ensures DataKept(m, m2)
  {
  }

  lemma ClearLeafRefines(m: Mem, s: Slot, r: nat, v: Vpn)
    requires CanClear(m, s) && IsRoot(m, r) && Private(v) && LeafSlot(m, r, v) == Some(s)
    ensures Inv(ClearLeaf(m, s)) && DataKept(m, ClearLeaf(m, s)) && OnlyChanges(m, ClearLeaf(m, s), r, v, None)
  {
    ClearLeafInv(m, s);
    var m' := ClearLeaf(m, s);
    LeafWriteKeepsData(m, m', s, 0);
    forall x, y | IsRoot(m, x) && Private(y)
      ensures Mapping(m', x, y) == if x == r && y == v then None else Mapping(m, x, y)
    {
      ClearLeafMapping(m, s, x, y);
      if LeafSlot(m, x, y) == Some(s) { LeafSlotInjective(m, x, y, r, v); }
    }
  }

  /** page_remove deletes one page of one environment and gives back one reference. */
  lemma RemoveRefines(m: Mem, r: nat, v: Vpn)
    requires Inv(m) && IsRoot(m, r) && Private(v)
    ensures var (m', st) := PageRemove(m, r, v);
            && st == Ok && Inv(m') && DataKept(m, m')
            && OnlyChanges(m, m', r, v, None)
            && match Mapping(m, r, v)
               case None => m' == m
               case Some(leaf) =>
                 && leaf.frame < |m.ref| && leaf.frame !in m.free
                 && m.ref[leaf.frame] >= 1 && m'.ref == m.ref[leaf.frame := m.ref[leaf.frame] - 1]
                 && m'.free == (if m.ref[leaf.frame] == 1 then [leaf.frame] + m.free else m.free)
  {
    LookupRefines(m, r, v);
    match PageLookup(m, r, v) {
      case Missing =>
      case Found(p, e) =>
        ClearLeafRefines(m, e, r, v);
        ClearLeafRemoves(m, e);
    }
  }

  // -------- page_insert --------

  /**
   The insertion of pp at v keeps the counts: it fails for lack of tables, or
   the permission word keeps the page and the 16-bit count has room, or need not
   grow. InsertKeepsInvIff states that this is exact.
   */
  ghost predicate Fits(m: Mem, r: nat, pp: nat, v: Vpn, perm: nat)
  {
    pp < |m.ref| && (|m.free| < MissingTables(m, r, v) || (KeepsPage(pp, perm) && (m.ref[pp] < 65535 || MapsPage(m, r, v, pp))))
  }

  ghost predicate CanInsert(m: Mem, r: nat, pp: nat, v: Vpn, perm: nat)
  {
    Inv(m) && IsRoot(m, r) && Private(v) && Mappable(m, pp) && Fits(m, r, pp, v, perm)
  }

  ghost predicate MapsPage(m: Mem, r: nat, v: Vpn, p: nat)
  {
    Mapping(m, r, v).Some? && Mapping(m, r, v).value.frame == p
  }

  lemma SetLeafKeepsData(m: Mem, m1: Mem, s: Slot, w: Word)
    requires Inv(m) && Inv(m1) && IsLeafSlot(m1, s) && DataKept(m, m1) && Sizes(SetLeaf(m1, s, w))
    requires forall f: nat {:trigger Holds(m, f)} :: Holds(m, f) ==> Holds(m1, f)
    ensures DataKept(m, SetLeaf(m1, s, w))
  {
  }

  /** After a successful walk, the leaf is written and only (r, v) changes. */
  lemma SetLeafRefines(m: Mem, s: Slot, w: Word, r: nat, v: Vpn)
    requires CanSet(m, s, w) && IsRoot(m, r) && Private(v) && LeafSlot(m, r, v) == Some(s)
    ensures Inv(SetLeaf(m, s, w)) && OnlyChanges(m, SetLeaf(m, s, w), r, v, Some(Leaf(FrameOf(w), w % 4096)))
  {
    SetLeafInv(m, s, w);
    var m' := SetLeaf(m, s, w);
    forall x, y | IsRoot(m, x) && Private(y)
      ensures Mapping(m', x, y) == if x == r && y == v then Some(Leaf(FrameOf(w), w % 4096)) else Mapping(m, x, y)
    {
      SetLeafMapping(m, s, w, x, y);
      if LeafSlot(m, x, y) == Some(s) { LeafSlotInjective(m, x, y, r, v); }
    }
  }

  lemma OnlyChangesAfter(m: Mem, m1: Mem, m2: Mem, r: nat, v: Vpn, now: Option<Leaf>)
    requires SameRoots(m, m1) && MappingsKept(m, m1) && OnlyChanges(m1, m2, r, v, now)
    ensures OnlyChanges(m, m2, r, v, now)
  {
  }

  lemma InsertFreshRefines(m: Mem, r: nat, pp: nat, v: Vpn, perm: nat)
    requires CanInsert(m, r, pp, v, perm) && Mapping(m, r, v) == None
    ensures var (m', st) := InsertFresh(m, r, pp, v, perm);
            var need := MissingTables(m, r, v);
            && Inv(m') && DataKept(m, m')
            && (st == Ok || st == NoMem) && (st == NoMem <==> |m.free| < need)
            && OnlyChanges(m, m', r, v, if st == Ok then Some(Leaf(pp, LeafAttrs(perm))) else None)
  {
    WalkCreates(m, r, v);
    var w := PgdirWalk(m, r, v, true);
    if w.status == Ok {
      var e := w.entry.value;
      var d := LeafEntry(pp, perm);
      LeafEntryDecodes(pp, perm);
      assert Mapping(w.mem, r, v) == None;
      assert w.mem.ref[pp] == m.ref[pp];
      SetLeafRefines(w.mem, e, d, r, v);
      OnlyChangesAfter(m, w.mem, SetLeaf(w.mem, e, d), r, v, Some(Leaf(pp, LeafAttrs(perm))));
      SetLeafKeepsData(m, w.mem, e, d);
    } else {
      assert Mapping(w.mem, r, v) == None;
    }
  }

  /** A fresh mapping costs one frame per missing table and gives pp one more reference. */
  lemma InsertFreshCounts(m: Mem, r: nat, pp: nat, v: Vpn, perm: nat)
    requires CanInsert(m, r, pp, v, perm) && (m.ref[pp] < 65535 || |m.free| < MissingTables(m, r, v))
    ensures var (m', st) := InsertFresh(m, r, pp, v, perm);
            && |m'.ref| == |m.ref| && m'.free == m.free[Min(MissingTables(m, r, v), |m.free|)..]
            && forall q {:trigger m'.ref[q]} :: 0 <= q < |m.ref| && q !in m.free ==>
                 m'.ref[q] == if st == Ok && q == pp then m.ref[q] + 1 else m.ref[q]
  {
    var mid, free, found := WalkCounts(m, r, v);
    var m', ok := InsertFreshShape(m, r, pp, v, perm, mid, free, found);
    OneMore(m.ref, mid, m'.ref, m.free, pp, ok);
  }

  lemma OneMore(ref: seq<nat>, mid: seq<nat>, ref': seq<nat>, except: seq<nat>, p: nat, more: bool)
    requires |mid| == |ref| && forall q {:trigger mid[q]} :: 0 <= q < |ref| && q !in except ==> mid[q] == ref[q]
    requires p < |ref| && p !in except && (more ==> ref[p] < 65535)
    requires ref' == if more then mid[p := (mid[p] + 1) % 65536] else mid
    ensures |ref'| == |ref|
    ensures forall q {:trigger ref'[q]} :: 0 <= q < |ref| && q !in except ==> ref'[q] == if more && q == p then ref[q] + 1 else ref[q]
  {
  }

  lemma InsertFreshShape(m: Mem, r: nat, pp: nat, v: Vpn, perm: nat, ref: seq<nat>, free: seq<nat>, found: bool) returns (m': Mem, ok: bool)
    requires var w := PgdirWalk(m, r, v, true); w.mem.ref == ref && w.mem.free == free && w.entry.Some? == found && pp < |ref|
    ensures InsertFresh(m, r, pp, v, perm) == (m', if ok then Ok else NoMem) && ok == found
    ensures m'.free == free && m'.ref == if ok then ref[pp := (ref[pp] + 1) % 65536] else ref
  {
    m', ok := InsertFresh(m, r, pp, v, perm).0, PgdirWalk(m, r, v, true).entry.Some?;
  }

  lemma WalkCounts(m: Mem, r: nat, v: Vpn) returns (ref: seq<nat>, free: seq<nat>, found: bool)
    requires Inv(m) && IsRoot(m, r) && Private(v)
    ensures var w := PgdirWalk(m, r, v, true); w.mem.ref == ref && w.mem.free == free && w.entry.Some? == found
    ensures found <==> MissingTables(m, r, v) <= |m.free|
    ensures |ref| == |m.ref| && free == m.free[Min(MissingTables(m, r, v), |m.free|)..]
    ensures forall q {:trigger ref[q]} :: 0 <= q < |m.ref| && q !in m.free ==> ref[q] == m.ref[q]
  {
    WalkCreates(m, r, v);
    var w := PgdirWalk(m, r, v, true);
    ref, free, found := w.mem.ref, w.mem.free, w.entry.Some?;
  }

  /**
   page_insert: with the page mapped, or out of memory for tables and the
   address space as it was. The failure condition is exact.
   */
  lemma InsertRefines(m: Mem, r: nat, pp: nat, v: Vpn, perm: nat)
    requires CanInsert(m, r, pp, v, perm)
    ensures var (m', st) := PageInsert(m, r, pp, v, perm);
            && Inv(m') && DataKept(m, m')
            && (st == Ok || st == NoMem) && (st == NoMem <==> |m.free| < MissingTables(m, r, v))
            && OnlyChanges(m, m', r, v, if st == Ok then Some(Leaf(pp, LeafAttrs(perm))) else Mapping(m, r, v))
  {
    LookupRefines(m, r, v);
    match PageLookup(m, r, v) {
      case Missing => InsertFreshRefines(m, r, pp, v, perm);
      case Found(p, e) =>
        if p == pp { InsertSame(m, r, pp, v, perm); } else { InsertReplaces(m, r, pp, v, perm); }
    }
  }

  lemma InsertSame(m: Mem, r: nat, pp: nat, v: Vpn, perm: nat)
    requires Inv(m) && IsRoot(m, r) && Private(v) && Mappable(m, pp) && KeepsPage(pp, perm) && MapsPage(m, r, v, pp)
    ensures var (m', st) := PageInsert(m, r, pp, v, perm);
            && Inv(m') && DataKept(m, m') && st == Ok && MissingTables(m, r, v) == 0
            && m'.free == m.free && m'.ref == m.ref
            && OnlyChanges(m, m', r, v, Some(Leaf(pp, LeafAttrs(perm))))
  {
    LookupRefines(m, r, v);
    var e := LeafSlot(m, r, v).value;
    var d := LeafEntry(pp, perm);
    LeafEntryDecodes(pp, perm);
    RewriteLeafInv(m, e, d);
    var m' := Put(m, e, d);
    LeafWriteKeepsData(m, m', e, d);
    forall x, y | IsRoot(m, x) && Private(y)
      ensures Mapping(m', x, y) == if x == r && y == v then Some(Leaf(pp, LeafAttrs(perm))) else Mapping(m, x, y)
    {
      RewriteLeafMapping(m, e, d, x, y);
      if LeafSlot(m, x, y) == Some(e) { LeafSlotInjective(m, x, y, r, v); }
    }
  }

  /** Replacing another page: the tables exist already, so it cannot fail. */
  lemma InsertReplaces(m: Mem, r: nat, pp: nat, v: Vpn, perm: nat)
    requires CanInsert(m, r, pp, v, perm)
    requires Mapping(m, r, v).Some? && !MapsPage(m, r, v, pp)
    ensures var (m', st) := PageInsert(m, r, pp, v, perm);
            && Inv(m') && DataKept(m, m') && st == Ok && MissingTables(m, r, v) == 0
            && OnlyChanges(m, m', r, v, Some(Leaf(pp, LeafAttrs(perm))))
  {
    var e := LeafSlot(m, r, v).value;
    var m1 := ReplaceStep(m, r, pp, v, perm, e);
    var d := LeafEntry(pp, perm);
    ClearLeafRefines(m, e, r, v);
    SetLeafRefines(m1, e, d, r, v);
    SetLeafKeepsReplaced(m, m1, e, d);
    OnlyChangesTwice(m, m1, SetLeaf(m1, e, d), r, v, None, Some(Leaf(pp, LeafAttrs(perm))));
  }

  /** ... and moves one reference from the old page, which is freed with its last one, to the new. */
  lemma InsertReplaceCounts(m: Mem, r: nat, pp: nat, v: Vpn, perm: nat, e: Slot) returns (m': Mem)
    requires CanInsert(m, r, pp, v, perm) && LeafSlot(m, r, v) == Some(e)
    requires IsValid(At(m, e)) && !MapsPage(m, r, v, pp)
    ensures PageInsert(m, r, pp, v, perm) == (m', Ok)
    ensures var q := FrameOf(At(m, e));
            && q < |m.ref| && m.ref[q] >= 1 && q != pp
            && m'.ref == m.ref[q := m.ref[q] - 1][pp := m.ref[pp] + 1]
            && m'.free == (if m.ref[q] == 1 then [q] + m.free else m.free)
  {
    var m1 := ReplaceStep(m, r, pp, v, perm, e);
    m' := SetLeaf(m1, e, LeafEntry(pp, perm));
    SetLeafCounts(m1, e, LeafEntry(pp, perm), pp);
  }

  lemma SetLeafCounts(m: Mem, s: Slot, w: Word, p: nat)
    requires CanSet(m, s, w) && FrameOf(w) == p
    ensures SetLeaf(m, s, w).ref == m.ref[p := m.ref[p] + 1] && SetLeaf(m, s, w).free == m.free
  {
  }

  /** Replacing clears the leaf and writes it again: the second walk grows nothing. */
  lemma ReplaceWalk(m: Mem, r: nat, pp: nat, v: Vpn, perm: nat, e: Slot) returns (m1: Mem)
    requires Inv(m) && IsRoot(m, r) && Private(v) && LeafSlot(m, r, v) == Some(e)
    requires IsValid(At(m, e)) && !MapsPage(m, r, v, pp)
    ensures CanClear(m, e) && m1 == ClearLeaf(m, e) && Inv(m1) && IsLeafSlot(m1, e) && !IsValid(At(m1, e))
    ensures PageInsert(m, r, pp, v, perm) == (Incr(Put(m1, e, LeafEntry(pp, perm)), pp), Ok)
    ensures LeafSlot(m1, r, v) == Some(e)
    ensures var q := FrameOf(At(m, e));
            && q < |m.ref| && m.ref[q] >= 1 && m1.role == m.role
            && m1.ref == m.ref[q := m.ref[q] - 1] && m1.free == (if m.ref[q] == 1 then [q] + m.free else m.free)
  {
    LookupRefines(m, r, v);
    WalkLevels(m, r, v);
    PutInLeaf(m, e, 0, r, v);
    ClearLeafRemoves(m, e);
    ClearLeafInv(m, e);
    m1 := ClearLeaf(m, e);
    assert PageRemove(m, r, v) == (m1, Ok);
    assert PgdirWalk(m1, r, v, true) == WalkResult(m1, Ok, Some(e));
  }

  lemma ReplaceStep(m: Mem, r: nat, pp: nat, v: Vpn, perm: nat, e: Slot) returns (m1: Mem)
    requires CanInsert(m, r, pp, v, perm) && LeafSlot(m, r, v) == Some(e)
    requires IsValid(At(m, e)) && !MapsPage(m, r, v, pp)
    ensures CanClear(m, e) && m1 == ClearLeaf(m, e) && CanSet(m1, e, LeafEntry(pp, perm))
    ensures FrameOf(LeafEntry(pp, perm)) == pp && LeafEntry(pp, perm) % 4096 == LeafAttrs(perm)
    ensures PageInsert(m, r, pp, v, perm) == (SetLeaf(m1, e, LeafEntry(pp, perm)), Ok)
    ensures LeafSlot(m1, r, v) == Some(e)
    ensures var q := FrameOf(At(m, e));
            && q < |m.ref| && m.ref[q] >= 1
            && m1.ref == m.ref[q := m.ref[q] - 1] && m1.free == (if m.ref[q] == 1 then [q] + m.free else m.free)
  {
    LeafEntryDecodes(pp, perm);
    m1 := ReplaceWalk(m, r, pp, v, perm, e);
  }

  lemma OnlyChangesTwice(m: Mem, m1: Mem, m2: Mem, r: nat, v: Vpn, mid: Option<Leaf>, now: Option<Leaf>)
    requires SameRoots(m, m1) && OnlyChanges(m, m1, r, v, mid) && OnlyChanges(m1, m2, r, v, now)
    ensures OnlyChanges(m, m2, r, v, now)
  {
  }

  lemma SetLeafKeepsReplaced(m: Mem, m1: Mem, s: Slot, w: Word)
    requires Inv(m) && Inv(m1) && IsLeafSlot(m, s) && Sizes(SetLeaf(m1, s, w))
    requires m1.frames == Stored(m.frames, s, 0) && m1.role == m.role && m1.pins == m.pins && m1.kroot == m.kroot
    ensures DataKept(m, SetLeaf(m1, s, w))
  {
  }

  /** page_insert gives pp one more reference unless pp was mapped there already; a failed one gives it none. */
  lemma InsertCounts(m: Mem, r: nat, pp: nat, v: Vpn, perm: nat)
    requires CanInsert(m, r, pp, v, perm)
    ensures var (m', st) := PageInsert(m, r, pp, v, perm);
            && pp < |m'.ref|
            && m'.ref[pp] == m.ref[pp] + (if st == Ok && !MapsPage(m, r, v, pp) then 1 else 0)
  {
    LookupRefines(m, r, v);
    if Mapping(m, r, v) == None {
      InsertFreshCounts(m, r, pp, v, perm);
    } else if MapsPage(m, r, v, pp) {
      InsertSame(m, r, pp, v, perm);
    } else {
      var _ := InsertReplaceCounts(m, r, pp, v, perm, LeafSlot(m, r, v).value);
      InsertReplaces(m, r, pp, v, perm);
    }
  }

  // -------- exactly when page_insert keeps the invariant --------

  /** The count of a page that an entry is written for, when it goes wrong: the entry names another page, or the 16 bits overflow. */
  lemma MiscountedFresh(m: Mem, s: Slot, w: Word, p: nat)
    requires Inv(m) && IsLeafSlot(m, s) && !IsValid(At(m, s)) && p < |m.ref|
    requires FrameOf(w) != p || (IsValid(w) && m.ref[p] == 65535)
    ensures !Inv(Incr(Put(m, s, w), p))
  {
    var m' := Incr(Put(m, s, w), p);
    assert CountOk(m, p);
    if FrameOf(w) != p {
      forall x ensures Points(m, x, p) <==> Points(m', x, p) { }
      RefsEqual(m, m', p);
    } else {
      InRefs(m', p, s);
      assert Points(m', s, p) && m'.ref[p] == 0;
    }
    assert !CountOk(m', p);
  }

  lemma MiscountedSame(m: Mem, s: Slot, w: Word, p: nat)
    requires Inv(m) && CanClear(m, s) && FrameOf(At(m, s)) == p < |m.ref| && FrameOf(w) != p
    ensures !Inv(Put(m, s, w))
  {
    var m' := Put(m, s, w);
    assert CountOk(m, p);
    forall x | x != s ensures Points(m, x, p) <==> Points(m', x, p) { assert At(m', x) == At(m, x); }
    RefsGain(m', m, p, s);
    assert !CountOk(m', p);
  }

  /**
   For every page that may be mapped and every 32-bit permission word:
   page_insert keeps the invariant exactly when it fails for lack of tables, or
   the permission word keeps the page and the 16-bit count has room, or need
   not grow.
   */
  lemma InsertKeepsInvIff(m: Mem, r: nat, pp: nat, v: Vpn, perm: nat)
    requires Inv(m) && IsRoot(m, r) && Private(v) && Mappable(m, pp) && perm < 0x1_0000_0000
    ensures Inv(PageInsert(m, r, pp, v, perm).0) <==> Fits(m, r, pp, v, perm)
  {
    LookupRefines(m, r, v);
    assert CountOk(m, pp);
    LeafEntryKeepsPage(pp, perm);
    if Mapping(m, r, v) == None {
      InsertFreshIff(m, r, pp, v, perm);
    } else {
      var e := LeafSlot(m, r, v).value;
      assert MissingTables(m, r, v) == 0;
      if MapsPage(m, r, v, pp) {
        if KeepsPage(pp, perm) { InsertSame(m, r, pp, v, perm); } else { MiscountedSame(m, e, LeafEntry(pp, perm), pp); }
      } else {
        InsertReplaceIff(m, r, pp, v, perm, e);
      }
    }
  }

  lemma InsertFreshIff(m: Mem, r: nat, pp: nat, v: Vpn, perm: nat)
    requires Inv(m) && IsRoot(m, r) && Private(v) && Mappable(m, pp) && Mapping(m, r, v) == None && m.ref[pp] <= 65535
    requires FrameOf(LeafEntry(pp, perm)) == pp <==> KeepsPage(pp, perm)
    ensures Inv(InsertFresh(m, r, pp, v, perm).0) <==>
            |m.free| < MissingTables(m, r, v) || (KeepsPage(pp, perm) && m.ref[pp] < 65535)
  {
    WalkCreates(m, r, v);
    var w := PgdirWalk(m, r, v, true);
    if w.status == Ok {
      assert Mapping(w.mem, r, v) == None && w.mem.ref[pp] == m.ref[pp];
      if KeepsPage(pp, perm) { LeafEntryDecodes(pp, perm); }
      if KeepsPage(pp, perm) && m.ref[pp] < 65535 {
        InsertFreshRefines(m, r, pp, v, perm);
      } else {
        MiscountedFresh(w.mem, w.entry.value, LeafEntry(pp, perm), pp);
      }
    }
  }

  lemma InsertReplaceIff(m: Mem, r: nat, pp: nat, v: Vpn, perm: nat, e: Slot)
    requires Inv(m) && IsRoot(m, r) && Private(v) && Mappable(m, pp) && LeafSlot(m, r, v) == Some(e) && m.ref[pp] <= 65535
    requires IsValid(At(m, e)) && !MapsPage(m, r, v, pp)
    requires FrameOf(LeafEntry(pp, perm)) == pp <==> KeepsPage(pp, perm)
    ensures Inv(PageInsert(m, r, pp, v, perm).0) <==> KeepsPage(pp, perm) && m.ref[pp] < 65535
  {
    if KeepsPage(pp, perm) { LeafEntryDecodes(pp, perm); }
    if KeepsPage(pp, perm) && m.ref[pp] < 65535 {
      InsertReplaces(m, r, pp, v, perm);
    } else {
      var m1 := ReplaceWalk(m, r, pp, v, perm, e);
      MiscountedFresh(m1, e, LeafEntry(pp, perm), pp);
    }
  }
}
