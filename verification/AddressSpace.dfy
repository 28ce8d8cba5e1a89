/**
 Building address spaces: env_setup_vm (lib/env.c:76-98) and the page loop of
 fork (lib/syscall_all.c:165-175), on values, with what they do to the mappings
 and the contents of every environment.
 */
module AddressSpace {
  import opened Mmu
  import opened Memory
  import opened MemoryProofs
  import opened PageTable

  // -------- env_setup_vm --------

  function CopyFrame(m: Mem, src: nat, dst: nat): Mem
  {
    if src < |m.frames| && dst < |m.frames| then m.(frames := m.frames[dst := m.frames[src]]) else m
  }

  /** A page of memory becomes the root of an environment: a copy of _pg_dir, held by an explicit pp_ref++. */
  function SetupVm(m: Mem): Mem
    requires m.free != []
  {
    var f := m.free[0];
    var m1 := CopyFrame(Incr(TakeFree(m), f), m.kroot, f);
    if f < |m1.role| && f < |m1.pins| then m1.(role := m1.role[f := Root], pins := m1.pins[f := 1]) else m1
  }

  lemma SetupShape(m: Mem)
    requires Inv(m) && m.free != []
    ensures var m' := SetupVm(m);
            var f := m.free[0];
            && f < |m.frames| && m.role[f] == Plain && f != m.kroot
            && m'.frames == m.frames[f := m.frames[m.kroot]]
            && m'.ref == m.ref[f := 1] && m'.free == m.free[1..]
            && m'.role == m.role[f := Root] && m'.pins == m.pins[f := 1] && m'.kroot == m.kroot
            && IsRoot(m', f) && !IsRoot(m, f)
            && forall s :: (Counted(m', s) <==> Counted(m, s)) && (Counted(m, s) ==> At(m', s) == At(m, s))
  {
    var m' := SetupVm(m);
    var f := m.free[0];
    assert f in m.free;
    forall s ensures (Counted(m', s) <==> Counted(m, s)) && (Counted(m, s) ==> At(m', s) == At(m, s)) {
      if s.frame == f && SHARED <= s.index < ENTRIES { assert At(m', s) == m.frames[m.kroot][s.index]; }
    }
  }

  lemma SetupInv(m: Mem)
    requires Inv(m) && m.free != []
    ensures Inv(SetupVm(m))
  {
    SetupShape(m);
    var m' := SetupVm(m);
    var f := m.free[0];
    assert f in m.free;
    forall s | Counted(m', s) ensures TargetOk(m', s) {
      assert Counted(m, s) && TargetOk(m, s);
      Unreferenced(m, f, s);
    }
    forall t | 0 <= t < |m'.role| ensures ParentOk(m', t) {
      assert ParentOk(m, t);
    }
    forall p | 0 <= p < |m'.ref| ensures CountOk(m', p) {
      assert CountOk(m, p);
      RefsEqual(m, m', p);
    }
    forall g | g in m'.free ensures g < |m'.frames| && m'.role[g] == Plain && m'.ref[g] == 0 { assert g in m.free; }
  }

  /** A new root maps no private page; the other address spaces and all data stay as they were. */
  lemma SetupRefines(m: Mem)
    requires Inv(m) && m.free != []
    ensures var m' := SetupVm(m);
            var f := m.free[0];
            && Inv(m') && IsRoot(m', f) && !IsRoot(m, f)
            && (forall r :: IsRoot(m', r) <==> IsRoot(m, r) || r == f)
            && (forall v :: Private(v) ==> Mapping(m', f, v) == None)
            && MappingsKept(m, m')
            && (forall g: nat {:trigger Holds(m, g)} :: Holds(m, g) ==> Holds(m', g) && m'.frames[g] == m.frames[g])
  {
    SetupShape(m);
    SetupInv(m);
    var m' := SetupVm(m);
    var f := m.free[0];
    assert f in m.free;
    forall v | Private(v) ensures Mapping(m', f, v) == None {
      assert !Counted(m, Slot(f, v.u));
    }
    forall r, v | IsRoot(m, r) && Private(v) ensures Mapping(m', r, v) == Mapping(m, r, v) {
      SamePath(m, m', r, v);
    }
  }

  /** A mapping depends only on the counted slots of its path. */
  lemma SamePath(m: Mem, m': Mem, r: nat, v: Vpn)
    requires Inv(m) && IsRoot(m, r) && IsRoot(m', r) && Private(v)
    requires Inv(m') && |m'.frames| == |m.frames|
    requires forall s :: (Counted(m', s) <==> Counted(m, s)) && (Counted(m, s) ==> At(m', s) == At(m, s))
    ensures Mapping(m', r, v) == Mapping(m, r, v)
  {
  }

  // -------- fork: the stack pages --------

  /** Page number k of an address space. */
  function Page(k: nat): Vpn { VpnOf(k * BY2PG) }

  lemma PagesDiffer(j: nat, k: nat)
    requires j < 0x800_0000 && k < 0x800_0000 && j != k
    ensures Page(j) != Page(k)
  {
    PageOfAddress(j, j * BY2PG);
    PageOfAddress(k, k * BY2PG);
    SamePage(j * BY2PG, k * BY2PG);
  }

  lemma PageIsPrivate(k: nat)
    requires 0x8_0000 <= k < 0x800_0000
    ensures Private(Page(k))
  {
    TopOfPage(k, k * BY2PG);
    PrivateFrom(k * BY2PG);
  }

  lemma PrivateFrom(va: nat)
    requires SHARED <= va / 0x4000_0000 < ENTRIES
    ensures Private(VpnOf(va))
  {
    Indices(va);
  }

  lemma TopOfPage(k: nat, va: nat)
    requires 0x8_0000 <= k < 0x800_0000 && va == k * BY2PG
    ensures SHARED <= va / 0x4000_0000 < ENTRIES
  {
  }

  datatype ForkStatus = Complete | Partial | OutOfPages | Fault

  /** One page: page_alloc, bcopy from the parent's address space, page_insert into the child's. */
  function ForkPage(m: Mem, parent: nat, child: nat, v: Vpn): (Mem, ForkStatus)
  {
    if m.free == [] then (m, OutOfPages)
    else
      var f := m.free[0];
      match Mapping(TakeFree(m), parent, v)
      case None => (TakeFree(m), Fault)
      case Some(leaf) =>
        var (m2, st) := PageInsert(CopyFrame(TakeFree(m), leaf.frame, f), child, f, v, PTE_V);
        (m2, if st == Ok then Complete else Partial)
  }

  /** The loop over the pages [k, top). The result of page_insert is not checked; Partial records that one failed. */
  function ForkPages(m: Mem, parent: nat, child: nat, k: nat, top: nat): (Mem, ForkStatus)
    decreases top - k
  {
    if k >= top then (m, Complete)
    else
      var (m1, st1) := ForkPage(m, parent, child, Page(k));
      if st1 == OutOfPages || st1 == Fault then (m1, st1)
      else
        var (m2, st2) := ForkPages(m1, parent, child, k + 1, top);
        (m2, if st1 == Complete || st2 == OutOfPages || st2 == Fault then st2 else Partial)
  }

  lemma TakeFreeShape(m: Mem)
    requires Inv(m) && m.free != []
    ensures var m1 := TakeFree(m);
            var f := m.free[0];
            && f < |m.frames| && m.role[f] == Plain && m.ref[f] == 0 && f !in m1.free
            && (forall s :: (Counted(m1, s) <==> Counted(m, s)) && (Counted(m, s) ==> At(m1, s) == At(m, s)))
            && (forall g: nat {:trigger m1.frames[g]} :: g < |m.frames| && g != f ==> m1.frames[g] == m.frames[g])
  {
    var m1 := TakeFree(m);
    var f := m.free[0];
    assert f in m.free;
    forall s ensures (Counted(m1, s) <==> Counted(m, s)) && (Counted(m, s) ==> At(m1, s) == At(m, s)) {
    }
  }

  /** page_alloc hands out a zeroed page nobody maps and changes no address space. */
  lemma AllocRefines(m: Mem)
    requires Inv(m) && m.free != []
    ensures var m1 := TakeFree(m);
            var f := m.free[0];
            && Inv(m1) && DataKept(m, m1) && MappingsKept(m, m1)
            && Mappable(m1, f) && m1.ref[f] == 0 && m1.frames[f] == ZeroFrame()
            && (forall s :: !Points(m, s, f))
            && m1.free == m.free[1..] && m1.ref == m.ref && m1.role == m.role
  {
    TakeFreeShape(m);
    var m1 := TakeFree(m);
    var f := m.free[0];
    assert f in m.free;
    forall s ensures !Points(m, s, f) { Unreferenced(m, f, s); }
    forall s | Counted(m1, s) ensures TargetOk(m1, s) { assert Counted(m, s) && TargetOk(m, s); }
    forall t | 0 <= t < |m1.role| ensures ParentOk(m1, t) { assert ParentOk(m, t); }
    forall p | 0 <= p < |m1.ref| ensures CountOk(m1, p) { assert CountOk(m, p); RefsEqual(m, m1, p); }
    forall g | g in m1.free ensures g < |m1.frames| && m1.role[g] == Plain && m1.ref[g] == 0 { assert g in m.free; }
    forall r, v | IsRoot(m, r) && Private(v) ensures Mapping(m1, r, v) == Mapping(m, r, v) { SamePath(m, m1, r, v); }
  }

  /** Filling an unmapped page in use changes nothing else. */
  lemma FillRefines(m: Mem, src: nat, f: nat)
    requires Inv(m) && src < |m.frames| && Mappable(m, f) && m.role[f] == Plain
    ensures var m1 := CopyFrame(m, src, f);
            && Inv(m1) && MappingsKept(m, m1) && SameRoots(m, m1)
            && m1.frames == m.frames[f := m.frames[src]] && m1.free == m.free && m1.ref == m.ref && m1.role == m.role
  {
    var m1 := CopyFrame(m, src, f);
    forall s ensures (Counted(m1, s) <==> Counted(m, s)) && (Counted(m, s) ==> At(m1, s) == At(m, s)) {
    }
    forall s | Counted(m1, s) ensures TargetOk(m1, s) { assert Counted(m, s) && TargetOk(m, s); }
    forall t | 0 <= t < |m1.role| ensures ParentOk(m1, t) { assert ParentOk(m, t); }
    forall p | 0 <= p < |m1.ref| ensures CountOk(m1, p) { assert CountOk(m, p); RefsEqual(m, m1, p); }
    forall r, v | IsRoot(m, r) && Private(v) ensures Mapping(m1, r, v) == Mapping(m, r, v) { SamePath(m, m1, r, v); }
  }

  /** A mapped page is a data page in use, with a positive count. */
  lemma MappedFrame(m: Mem, r: nat, v: Vpn)
    requires Inv(m) && IsRoot(m, r) && Private(v) && Mapping(m, r, v).Some?
    ensures var g := Mapping(m, r, v).value.frame;
            Holds(m, g) && g < |m.ref| && m.ref[g] >= 1
  {
    var s := LeafSlot(m, r, v).value;
    WalkLevels(m, r, v);
    ClearLeafRemoves(m, s);
    assert Counted(m, s) && TargetOk(m, s);
  }

  /** What a round of fork's loop finds: a page of its own kind that the child does not map. The parent may map it or not. */
  ghost predicate CanEnterPage(m: Mem, parent: nat, child: nat, v: Vpn)
  {
    Inv(m) && IsRoot(m, parent) && IsRoot(m, child) && parent != child && Private(v) && Mapping(m, child, v) == None
  }

  ghost predicate CanForkPage(m: Mem, parent: nat, child: nat, v: Vpn)
  {
    CanEnterPage(m, parent, child, v) && Mapping(m, parent, v).Some?
  }

  /** A page the parent does not map: the copy faults, with one page taken off the free list. */
  lemma UnmappedFaults(m: Mem, parent: nat, child: nat, v: Vpn)
    requires CanEnterPage(m, parent, child, v) && m.free != []
    ensures Mapping(m, parent, v) == None <==> ForkPage(m, parent, child, v).1 == Fault
    ensures Mapping(m, parent, v) == None ==> ForkPage(m, parent, child, v).0 == TakeFree(m)
    ensures ForkPage(m, parent, child, v).1 != OutOfPages
  {
    AllocRefines(m);
    assert Mapping(TakeFree(m), parent, v) == Mapping(m, parent, v);
  }

  function Copied(m: Mem, src: nat): Mem
    requires m.free != []
  {
    CopyFrame(TakeFree(m), src, m.free[0])
  }

  /** page_alloc and bcopy: a page in use by nobody else now holds what src holds. */
  lemma CopiedRefines(m: Mem, src: nat)
    requires Inv(m) && m.free != [] && Holds(m, src)
    ensures var m1 := Copied(m, src);
            var f := m.free[0];
            && Inv(m1) && MappingsKept(m, m1) && DataKept(m, m1)
            && m1.free == m.free[1..] && m1.ref == m.ref && m1.role == m.role
            && Holds(m1, f) && Mappable(m1, f) && m1.ref[f] == 0 && m1.frames[f] == m.frames[src]
            && (forall g: nat {:trigger Holds(m, g)} :: Holds(m, g) ==> Holds(m1, g) && g != f)
  {
    var f := m.free[0];
    assert f in m.free;
    AllocRefines(m);
    var m0 := TakeFree(m);
    FillRefines(m0, src, f);
    var m1 := Copied(m, src);
    forall r, v | IsRoot(m, r) && Private(v) ensures Mapping(m1, r, v) == Mapping(m, r, v) {
      assert Mapping(m0, r, v) == Mapping(m, r, v) && IsRoot(m0, r);
    }
    forall g: nat | Holds(m, g) ensures Holds(m1, g) && g != f && m1.frames[g] == m.frames[g] { }
    forall r: nat, i: nat | IsRoot(m, r) && i < SHARED ensures m1.frames[r][i] == m.frames[r][i] {
      assert r != f && m1.frames[r] == m0.frames[r];
      assert m0.frames[r][i] == m.frames[r][i];
    }
  }

  /** One iteration is an allocation and a copy, then an insertion where nothing was mapped. */
  lemma ForkPageSteps(m: Mem, parent: nat, child: nat, v: Vpn) returns (m1: Mem, st: Status)
    requires CanForkPage(m, parent, child, v) && m.free != []
    ensures Mapping(m, parent, v).value.frame < |m.frames|
    ensures var f := m.free[0];
            && m1 == Copied(m, Mapping(m, parent, v).value.frame)
            && MappingsKept(m, m1) && DataKept(m, m1)
            && m1.free == m.free[1..] && m1.ref == m.ref && m1.role == m.role
            && Holds(m1, f) && m1.ref[f] == 0 && m1.frames[f] == m.frames[Mapping(m, parent, v).value.frame]
            && (forall g: nat {:trigger Holds(m, g)} :: Holds(m, g) ==> Holds(m1, g) && g != f)
            && CanInsert(m1, child, f, v, PTE_V) && Mapping(m1, child, v) == None
            && st == InsertFresh(m1, child, f, v, PTE_V).1
            && ForkPage(m, parent, child, v) == (InsertFresh(m1, child, f, v, PTE_V).0, if st == Ok then Complete else Partial)
  {
    var f := m.free[0];
    var src := Mapping(m, parent, v).value.frame;
    MappedFrame(m, parent, v);
    AllocRefines(m);
    assert Mapping(TakeFree(m), parent, v) == Mapping(m, parent, v);
    CopiedRefines(m, src);
    m1 := Copied(m, src);
    SmallKeeps(f, PTE_V);
    assert IsRoot(m1, child);
    assert Mapping(m1, child, v) == None;
    LookupRefines(m1, child, v);
    st := InsertFresh(m1, child, f, v, PTE_V).1;
  }

  /** One step of the loop: the child gets a fresh page with the contents of the parent's, or nothing changes for anyone. */
  lemma ForkPageRefines(m: Mem, parent: nat, child: nat, v: Vpn)
    requires CanForkPage(m, parent, child, v) && m.free != []
    ensures var (m2, st) := ForkPage(m, parent, child, v);
            var f := m.free[0];
            && (st == Complete || st == Partial)
            && (st == Complete <==> MissingTables(Copied(m, Mapping(m, parent, v).value.frame), child, v) < |m.free|)
            && Inv(m2) && DataKept(m, m2)
            && OnlyChanges(m, m2, child, v, if st == Complete then Some(Leaf(f, LeafAttrs(PTE_V))) else None)
  {
    var f := m.free[0];
    var m1, st := ForkPageSteps(m, parent, child, v);
    InsertFreshRefines(m1, child, f, v, PTE_V);
    var m2 := InsertFresh(m1, child, f, v, PTE_V).0;
    DataKeptCompose(m, m1, m2);
    OnlyChangesAfter(m, m1, m2, child, v, if st == Ok then Some(Leaf(f, LeafAttrs(PTE_V))) else None);
  }

  /** ... and the fresh page keeps that content while frames only leave the free list. */
  lemma ForkPageFresh(m: Mem, parent: nat, child: nat, v: Vpn) returns (m2: Mem, st: ForkStatus, j: nat)
    requires CanForkPage(m, parent, child, v) && m.free != []
    ensures (m2, st) == ForkPage(m, parent, child, v)
    ensures 1 <= j <= |m.free| && m2.free == m.free[j..]
    ensures Sizes(m2) && Holds(m2, m.free[0]) && CountsKept(m, m2)
    ensures Mapping(m, parent, v).value.frame < |m.frames|
    ensures m2.frames[m.free[0]] == m.frames[Mapping(m, parent, v).value.frame]
    ensures m2.pins[m.free[0]] == 0 && (st == Complete ==> m2.ref[m.free[0]] == 1)
  {
    var f := m.free[0];
    assert f in m.free && CountOk(m, f);
    var m1, st0 := ForkPageSteps(m, parent, child, v);
    m2, j := FreshInserted(m1, child, f, v);
    st := if st0 == Ok then Complete else Partial;
    j := 1 + j;
    LaterFree(m.free, j);
  }

  /** The new page after its insertion: its contents stay, and it is counted when it is mapped. */
  lemma FreshInserted(m: Mem, r: nat, f: nat, v: Vpn) returns (m2: Mem, j: nat)
    requires CanInsert(m, r, f, v, PTE_V) && Mapping(m, r, v) == None && Holds(m, f) && m.ref[f] == 0
    ensures m2 == InsertFresh(m, r, f, v, PTE_V).0 && j <= |m.free| && m2.free == m.free[j..]
    ensures Sizes(m2) && |m2.frames| == |m.frames| && m2.pins == m.pins && m2.frames[f] == m.frames[f] && m2.role[f] == m.role[f]
    ensures |m2.ref| == |m.ref| && m2.ref[f] == if InsertFresh(m, r, f, v, PTE_V).1 == Ok then 1 else 0
    ensures forall q: nat {:trigger m2.ref[q]} :: q < |m.ref| && q !in m.free && q != f ==> m2.ref[q] == m.ref[q]
  {
    InsertFreshRefines(m, r, f, v, PTE_V);
    InsertFreshCounts(m, r, f, v, PTE_V);
    m2, j := InsertFresh(m, r, f, v, PTE_V).0, Min(MissingTables(m, r, v), |m.free|);
  }

  /** What is left of the free list after its first elements lacks the first. */
  lemma LaterFree(free: seq<nat>, j: nat)
    requires 1 <= j <= |free| && forall i, k :: 0 <= i < k < |free| ==> free[i] != free[k]
    ensures free[1..][j - 1..] == free[j..] && free[0] !in free[j..]
  {
  }

  ghost predicate InPages(v: Vpn, k: nat, top: nat)
  {
    exists j: nat {:trigger Page(j)} :: k <= j < top && v == Page(j)
  }

  ghost predicate CanFork(m: Mem, parent: nat, child: nat, k: nat, top: nat)
  {
    && Inv(m) && IsRoot(m, parent) && IsRoot(m, child) && parent != child
    && 0x8_0000 <= k && top <= 0x800_0000
    && forall j: nat {:trigger Page(j)} :: k <= j < top ==> Mapping(m, child, Page(j)) == None
  }

  /** The parent maps every page of the range. */
  ghost predicate RangeMapped(m: Mem, parent: nat, k: nat, top: nat)
  {
    forall j: nat {:trigger Page(j)} :: k <= j < top ==> Mapping(m, parent, Page(j)).Some?
  }

  /** Page v of the child is a page that was free, holding what the parent's page v held. */
  ghost predicate ClonedPage(m: Mem, m': Mem, parent: nat, child: nat, v: Vpn)
    requires Sizes(m) && Sizes(m')
  {
    && Mapping(m, parent, v).Some? && Mapping(m', child, v).Some?
    && var src := Mapping(m, parent, v).value.frame;
    var g := Mapping(m', child, v).value.frame;
    && Mapping(m', child, v).value.attrs == LeafAttrs(PTE_V)
    && g in m.free && Holds(m', g) && g < |m'.ref| && m'.ref[g] == 1 && m'.pins[g] == 0
    && src < |m.frames| && g < |m'.frames| && m'.frames[g] == m.frames[src]
  }

  /** What the loop leaves alone, whether or not it completes. */
  ghost predicate ForkFrame(m: Mem, m': Mem, child: nat, k: nat, top: nat)
    requires Sizes(m) && Sizes(m')
  {
    && DataKept(m, m')
    && (forall x, y {:trigger Mapping(m', x, y)} :: IsRoot(m, x) && Private(y) && !(x == child && InPages(y, k, top)) ==>
          Mapping(m', x, y) == Mapping(m, x, y))
    && (exists j :: 0 <= j <= |m.free| && m'.free == m.free[j..])
    && CountsKept(m, m')
  }

  /** Pages that were in use keep their reference counts. */
  ghost predicate CountsKept(m: Mem, m': Mem)
  {
    |m'.ref| == |m.ref| && forall q: nat {:trigger m'.ref[q]} :: q < |m.ref| && q !in m.free ==> m'.ref[q] == m.ref[q]
  }

  lemma ForkFrameStep(m: Mem, m1: Mem, m2: Mem, child: nat, k: nat, top: nat, now: Option<Leaf>)
    requires Inv(m) && Inv(m1) && Inv(m2) && k < top
    requires DataKept(m, m1) && OnlyChanges(m, m1, child, Page(k), now)
    requires exists j :: 0 <= j <= |m.free| && m1.free == m.free[j..]
    requires CountsKept(m, m1)
    requires ForkFrame(m1, m2, child, k + 1, top)
    ensures ForkFrame(m, m2, child, k, top)
  {
    SuffixCompose(m.free, m1.free, m2.free);
    forall q: nat | q < |m.ref| && q !in m.free ensures m2.ref[q] == m.ref[q] {
      assert m1.ref[q] == m.ref[q];
    }
    forall g: nat | Holds(m, g) ensures Holds(m1, g) {
      assert m1.role[g] == m.role[g];
    }
    DataKeptCompose(m, m1, m2);
    ForkMappingsCompose(m, m1, m2, child, k, top, now);
  }

  lemma SuffixCompose(a: seq<nat>, b: seq<nat>, c: seq<nat>)
    requires exists i :: 0 <= i <= |a| && b == a[i..]
    requires exists j :: 0 <= j <= |b| && c == b[j..]
    ensures exists k :: 0 <= k <= |a| && c == a[k..]
    ensures forall x :: x !in a ==> x !in b && x !in c
  {
  }

  lemma ForkMappingsCompose(m: Mem, m1: Mem, m2: Mem, child: nat, k: nat, top: nat, now: Option<Leaf>)
    requires k < top && SameRoots(m, m1) && OnlyChanges(m, m1, child, Page(k), now)
    requires forall x, y {:trigger Mapping(m2, x, y)} :: IsRoot(m1, x) && Private(y) && !(x == child && InPages(y, k + 1, top)) ==>
               Mapping(m2, x, y) == Mapping(m1, x, y)
    ensures forall x, y {:trigger Mapping(m2, x, y)} :: IsRoot(m, x) && Private(y) && !(x == child && InPages(y, k, top)) ==>
              Mapping(m2, x, y) == Mapping(m, x, y)
  {
  }

  /** What the loop over [k, top) achieves and leaves alone. */
  ghost predicate LoopOutcome(m: Mem, m': Mem, st: ForkStatus, parent: nat, child: nat, k: nat, top: nat)
  {
    && Inv(m) && Inv(m') && ForkFrame(m, m', child, k, top)
    && (RangeMapped(m, parent, k, top) ==> st != Fault)
    && (st == Complete ==>
          forall j: nat {:trigger Page(j)} :: k <= j < top ==> ClonedPage(m, m', parent, child, Page(j)))
  }

  /** r is what the loop from page k on comes to. Results about it hang on this predicate. */
  ghost predicate IsLoop(m: Mem, parent: nat, child: nat, k: nat, top: nat, r: (Mem, ForkStatus))
  {
    r == ForkPages(m, parent, child, k, top)
  }

  ghost predicate EndsWell(m: Mem, parent: nat, child: nat, k: nat, top: nat)
  {
    forall r {:trigger IsLoop(m, parent, child, k, top, r)} :: IsLoop(m, parent, child, k, top, r) ==> LoopOutcome(m, r.0, r.1, parent, child, k, top)
  }

  lemma ForkPagesRefines(m: Mem, parent: nat, child: nat, k: nat, top: nat)
    requires CanFork(m, parent, child, k, top) && k <= top
    ensures LoopOutcome(m, ForkPages(m, parent, child, k, top).0, ForkPages(m, parent, child, k, top).1, parent, child, k, top)
  {
    LoopEndsWell(m, parent, child, k, top);
    assert IsLoop(m, parent, child, k, top, ForkPages(m, parent, child, k, top));
  }

  lemma {:induction false} LoopEndsWell(m: Mem, parent: nat, child: nat, k: nat, top: nat)
    requires CanFork(m, parent, child, k, top) && k <= top
    ensures EndsWell(m, parent, child, k, top)
    decreases top - k
  {
    if k == top || m.free == [] {
      NoRound(m, parent, child, k, top);
    } else {
      PageIsPrivate(k);
      if Mapping(m, parent, Page(k)) == None {
        FaultRound(m, parent, child, k, top);
      } else {
        var m1 := FirstLeads(m, parent, child, k, top);
        LoopEndsWell(m1, parent, child, k + 1, top);
      }
    }
  }

  lemma NoRound(m: Mem, parent: nat, child: nat, k: nat, top: nat)
    requires Inv(m) && k <= top && (k == top || m.free == [])
    ensures EndsWell(m, parent, child, k, top)
  {
    assert m.free == m.free[0..];
  }

  lemma FaultRound(m: Mem, parent: nat, child: nat, k: nat, top: nat)
    requires CanEnterPage(m, parent, child, Page(k)) && m.free != [] && k < top && Mapping(m, parent, Page(k)) == None
    ensures EndsWell(m, parent, child, k, top)
  {
    UnmappedFaults(m, parent, child, Page(k));
    FaultFrame(m, child, k, top);
  }

  lemma FaultFrame(m: Mem, child: nat, k: nat, top: nat)
    requires Inv(m) && m.free != []
    ensures Inv(TakeFree(m)) && ForkFrame(m, TakeFree(m), child, k, top)
  {
    AllocRefines(m);
    assert TakeFree(m).free == m.free[1..];
    forall x, y | IsRoot(m, x) && Private(y) ensures Mapping(TakeFree(m), x, y) == Mapping(m, x, y) { }
  }

  /** What the rest of the loop finds after its first round, and what that round kept. */
  ghost predicate AfterFirst(m: Mem, m1: Mem, parent: nat, child: nat, k: nat, top: nat)
    requires Inv(m)
  {
    && CanFork(m1, parent, child, k + 1, top) && DataKept(m, m1) && OnlyChanges(m, m1, child, Page(k), Mapping(m1, child, Page(k)))
    && CountsKept(m, m1) && (exists j :: 0 <= j <= |m.free| && m1.free == m.free[j..])
    && forall j: nat {:trigger Page(j)} :: k <= j < top ==> Mapping(m1, parent, Page(j)) == Mapping(m, parent, Page(j))
  }

  lemma FirstForked(m: Mem, parent: nat, child: nat, k: nat, top: nat) returns (m1: Mem, st1: ForkStatus)
    requires CanFork(m, parent, child, k, top) && k < top && m.free != [] && Mapping(m, parent, Page(k)).Some?
    ensures (m1, st1) == ForkPage(m, parent, child, Page(k)) && (st1 == Complete || st1 == Partial)
    ensures AfterFirst(m, m1, parent, child, k, top)
  {
    PageIsPrivate(k);
    var j;
    m1, st1, j := ForkPageFresh(m, parent, child, Page(k));
    ForkPageRefines(m, parent, child, Page(k));
    ForkRest(m, m1, parent, child, k, top);
  }

  /** The outcome of the rest, and what the first round makes of it. */
  lemma RestOutcome(m: Mem, m1: Mem, st1: ForkStatus, parent: nat, child: nat, k: nat, top: nat, r: (Mem, ForkStatus)) returns (rest: (Mem, ForkStatus))
    requires k < top && (m1, st1) == ForkPage(m, parent, child, Page(k)) && (st1 == Complete || st1 == Partial)
    requires IsLoop(m, parent, child, k, top, r) && EndsWell(m1, parent, child, k + 1, top)
    ensures LoopOutcome(m1, rest.0, rest.1, parent, child, k + 1, top)
    ensures r == (rest.0, if st1 == Complete || rest.1 == OutOfPages || rest.1 == Fault then rest.1 else Partial)
  {
    rest := ForkPages(m1, parent, child, k + 1, top);
    assert IsLoop(m1, parent, child, k + 1, top, rest);
  }

  /** The outcome of the first round and that of the rest, together. */
  lemma RoundThen(m: Mem, m1: Mem, st1: ForkStatus, parent: nat, child: nat, k: nat, top: nat)
    requires CanFork(m, parent, child, k, top) && k < top && m.free != [] && Mapping(m, parent, Page(k)).Some?
    requires (m1, st1) == ForkPage(m, parent, child, Page(k)) && (st1 == Complete || st1 == Partial)
    requires AfterFirst(m, m1, parent, child, k, top) && EndsWell(m1, parent, child, k + 1, top)
    ensures EndsWell(m, parent, child, k, top)
  {
    forall r {:trigger IsLoop(m, parent, child, k, top, r)} | IsLoop(m, parent, child, k, top, r)
      ensures LoopOutcome(m, r.0, r.1, parent, child, k, top)
    {
      var rest := RestOutcome(m, m1, st1, parent, child, k, top, r);
      OutcomeThen(m, m1, st1, rest.0, rest.1, parent, child, k, top);
    }
  }

  /** The loop ends well when it does from its second round on. */
  lemma FirstLeads(m: Mem, parent: nat, child: nat, k: nat, top: nat) returns (m1: Mem)
    requires CanFork(m, parent, child, k, top) && k < top && m.free != [] && Mapping(m, parent, Page(k)).Some?
    ensures CanFork(m1, parent, child, k + 1, top)
    ensures EndsWell(m1, parent, child, k + 1, top) ==> EndsWell(m, parent, child, k, top)
  {
    var st1;
    m1, st1 := FirstForked(m, parent, child, k, top);
    if EndsWell(m1, parent, child, k + 1, top) { RoundThen(m, m1, st1, parent, child, k, top); }
  }

  lemma OutcomeThen(m: Mem, m1: Mem, st1: ForkStatus, m2: Mem, st2: ForkStatus, parent: nat, child: nat, k: nat, top: nat)
    requires CanFork(m, parent, child, k, top) && k < top && m.free != [] && Mapping(m, parent, Page(k)).Some?
    requires (m1, st1) == ForkPage(m, parent, child, Page(k))
    requires AfterFirst(m, m1, parent, child, k, top) && LoopOutcome(m1, m2, st2, parent, child, k + 1, top)
    ensures LoopOutcome(m, m2, if st1 == Complete || st2 == OutOfPages || st2 == Fault then st2 else Partial, parent, child, k, top)
  {
    ForkFrameStep(m, m1, m2, child, k, top, Mapping(m1, child, Page(k)));
    if RangeMapped(m, parent, k, top) { assert RangeMapped(m1, parent, k + 1, top); }
    if st1 == Complete && st2 == Complete { AllCloned(m, m1, m2, parent, child, k, top); }
  }

  /** The first page is cloned, and the clones of the others are clones with respect to the state before it. */
  lemma AllCloned(m: Mem, m1: Mem, m2: Mem, parent: nat, child: nat, k: nat, top: nat)
    requires CanFork(m, parent, child, k, top) && k < top && m.free != [] && Mapping(m, parent, Page(k)).Some?
    requires m1 == ForkPage(m, parent, child, Page(k)).0 && ForkPage(m, parent, child, Page(k)).1 == Complete
    requires Inv(m1) && Inv(m2) && DataKept(m, m1) && ForkFrame(m1, m2, child, k + 1, top)
    requires OnlyChanges(m, m1, child, Page(k), Mapping(m1, child, Page(k)))
    requires exists i :: 0 <= i <= |m.free| && m1.free == m.free[i..]
    requires forall j: nat {:trigger Page(j)} :: k + 1 <= j < top ==> ClonedPage(m1, m2, parent, child, Page(j))
    ensures forall j: nat {:trigger Page(j)} :: k <= j < top ==> ClonedPage(m, m2, parent, child, Page(j))
  {
    forall j: nat | k <= j < top ensures ClonedPage(m, m2, parent, child, Page(j)) {
      if j == k {
        FirstCloned(m, m1, m2, parent, child, k, top);
      } else {
        LaterCloned(m, m1, m2, parent, child, k, j);
      }
    }
  }

  lemma ForkRest(m: Mem, m1: Mem, parent: nat, child: nat, k: nat, top: nat)
    requires CanFork(m, parent, child, k, top) && k < top
    requires Inv(m1) && SameRoots(m, m1) && OnlyChanges(m, m1, child, Page(k), Mapping(m1, child, Page(k)))
    ensures CanFork(m1, parent, child, k + 1, top)
    ensures forall j: nat {:trigger Page(j)} :: k <= j < top ==> Mapping(m1, parent, Page(j)) == Mapping(m, parent, Page(j))
  {
    forall j: nat | k <= j < top
      ensures Mapping(m1, parent, Page(j)) == Mapping(m, parent, Page(j))
      ensures j != k ==> Mapping(m1, child, Page(j)) == None
    {
      PageIsPrivate(j);
      if j != k {
        PagesDiffer(j, k);
        assert Mapping(m1, child, Page(j)) == Mapping(m, child, Page(j));
      }
    }
  }

  lemma FirstCloned(m: Mem, m1: Mem, m2: Mem, parent: nat, child: nat, k: nat, top: nat)
    requires CanFork(m, parent, child, k, top) && k < top && m.free != [] && Mapping(m, parent, Page(k)).Some?
    requires m1 == ForkPage(m, parent, child, Page(k)).0 && ForkPage(m, parent, child, Page(k)).1 == Complete
    requires Inv(m1) && Inv(m2) && ForkFrame(m1, m2, child, k + 1, top)
    ensures ClonedPage(m, m2, parent, child, Page(k))
  {
    var v := Page(k);
    PageIsPrivate(k);
    var _, _, _ := ForkPageFresh(m, parent, child, v);
    ForkPageRefines(m, parent, child, v);
    assert Mapping(m1, child, v) == Some(Leaf(m.free[0], LeafAttrs(PTE_V)));
    if InPages(v, k + 1, top) {
      var j: nat :| k + 1 <= j < top && v == Page(j);
      PagesDiffer(j, k);
    }
    assert IsRoot(m1, child);
    assert Mapping(m2, child, v) == Mapping(m1, child, v);
    HoldsStays(m1, m2, m.free[0]);
    assert m2.ref[m.free[0]] == m1.ref[m.free[0]];
  }

  lemma HoldsStays(m: Mem, m': Mem, g: nat)
    requires Inv(m) && Inv(m') && DataKept(m, m') && Holds(m, g)
    requires exists j :: 0 <= j <= |m.free| && m'.free == m.free[j..]
    ensures Holds(m', g) && m'.frames[g] == m.frames[g]
  {
  }

  lemma LaterCloned(m: Mem, m1: Mem, m2: Mem, parent: nat, child: nat, k: nat, j: nat)
    requires Inv(m) && Inv(m1) && Inv(m2) && DataKept(m, m1) && IsRoot(m, parent) && parent != child
    requires OnlyChanges(m, m1, child, Page(k), Mapping(m1, child, Page(k)))
    requires exists i :: 0 <= i <= |m.free| && m1.free == m.free[i..]
    requires 0x8_0000 <= k < j < 0x800_0000
    requires ClonedPage(m1, m2, parent, child, Page(j))
    ensures ClonedPage(m, m2, parent, child, Page(j))
  {
    PageIsPrivate(j);
    assert Mapping(m1, parent, Page(j)) == Mapping(m, parent, Page(j));
    MappedFrame(m, parent, Page(j));
    assert forall x :: x in m1.free ==> x in m.free;
  }

  /** A page with count 1 and no pin is mapped at one place only, in all address spaces together. */
  lemma SoleMapping(m: Mem, p: nat, r1: nat, v1: Vpn, r2: nat, v2: Vpn)
    requires Inv(m) && p < |m.ref| && m.ref[p] == 1 && m.pins[p] == 0
    requires IsRoot(m, r1) && IsRoot(m, r2) && Private(v1) && Private(v2)
    requires MapsPage(m, r1, v1, p) && MapsPage(m, r2, v2, p)
    ensures r1 == r2 && v1 == v2
  {
    var s1, s2 := LeafSlot(m, r1, v1).value, LeafSlot(m, r2, v2).value;
    WalkLevels(m, r1, v1);
    WalkLevels(m, r2, v2);
    InRefs(m, p, s1);
    InRefs(m, p, s2);
    assert CountOk(m, p) && |Refs(m, p)| == 1;
    if s1 != s2 {
      assert {s1, s2} <= Refs(m, p);
      SubsetSize({s1, s2}, Refs(m, p));
    }
    LeafSlotInjective(m, r1, v1, r2, v2);
  }

  lemma {:induction false} SubsetSize(a: set<Slot>, b: set<Slot>)
    requires a <= b
    ensures |a| <= |b|
  {
    if a == {} {
    } else {
      var x :| x in a;
      SubsetSize(a - {x}, b - {x});
    }
  }

  /** The pages of a complete fork are pairwise different and mapped by the child alone. */
  lemma ClonesAreSole(m: Mem, m': Mem, parent: nat, child: nat, v: Vpn, x: nat, y: Vpn)
    requires Inv(m) && Inv(m') && IsRoot(m', child) && Private(v) && ClonedPage(m, m', parent, child, v)
    requires IsRoot(m', x) && Private(y) && MapsPage(m', x, y, Mapping(m', child, v).value.frame)
    ensures x == child && y == v
  {
    SoleMapping(m', Mapping(m', child, v).value.frame, child, v, x, y);
  }
}
