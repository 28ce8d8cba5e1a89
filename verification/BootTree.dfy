/**
 The tables the boot code builds, seen by the hardware: the stage 1 walk of
 VMSAv8-64 with a 4K granule and 39-bit addresses (Arm ARM DDI 0487, section
 D5.3; D8.3 in later issues), block descriptors included, and what writing a
 leaf or linking a table does to the translation of every address.
 */
module BootTree {
  import opened Bits
  import opened Mmu
  import opened Memory

  const VA_LIMIT: nat := 0x80_0000_0000      // T0SZ = 25

  /** The three table indices of an address, in plain arithmetic. */
  function Split(va: nat): (v: Vpn)
    ensures v.Ok()
  {
    Vpn(va / 0x4000_0000 % 512, va / 0x20_0000 % 512, va / 0x1000 % 512)
  }

  lemma SplitIsVpn(va: nat)
    ensures Split(va) == VpnOf(va)
  {
    Indices(va);
  }

  /** The address of page v. */
  lemma SplitDetermines(va: nat)
    requires va < VA_LIMIT
    ensures Split(va).Number() == va / 4096
  {
    var n := va / 0x1000;
    SplitPageNumber(n);
    PageParts(va, n);
  }

  lemma PageParts(va: nat, n: nat)
    requires va < VA_LIMIT && n == va / 0x1000
    ensures va / 0x20_0000 == n / 512 && va / 0x4000_0000 == n / 512 / 512 && n % 0x800_0000 == n
  {
  }

  function Get(frames: seq<Frame>, s: Slot): Word
  {
    if s.frame < |frames| && s.index < ENTRIES then frames[s.frame][s.index] else 0
  }

  /** Bits 47:12 of a descriptor: the next table, or the page. */
  function Output(w: Word): nat { w / 4096 % 0x10_0000_0000 }

  /** Where the walk for page v ends: at a descriptor of level 1 or 2 that is no table, or in a third-level slot. */
  datatype Walked = Stop(level: nat, w: Word) | LeafAt(s: Slot)

  function Walk(frames: seq<Frame>, root: nat, v: Vpn): Walked
  {
    var w1 := Get(frames, Slot(root, v.u));
    if !IsTable(w1) then Stop(1, w1)
    else
      var w2 := Get(frames, Slot(Output(w1), v.m));
      if !IsTable(w2) then Stop(2, w2) else LeafAt(Slot(Output(w2), v.t))
  }

  datatype Translation = Fault | Mapped(pa: nat, attrs: nat)

  /** The translation of va when its walk ends like this; `attrs` are the lower attribute bits. */
  function Resolve(frames: seq<Frame>, walked: Walked, va: nat): Translation
  {
    match walked
    case Stop(1, w) => if w % 4 == 1 then Mapped(Output(w) / 0x4_0000 * 0x4000_0000 + va % 0x4000_0000, w % 4096) else Fault
    case Stop(_, w) => if w % 4 == 1 then Mapped(Output(w) / 512 * 0x20_0000 + va % 0x20_0000, w % 4096) else Fault
    case LeafAt(s) =>
      var w := Get(frames, s);
      if IsTable(w) then Mapped(Output(w) * 4096 + va % 4096, w % 4096) else Fault
  }

  /** What the hardware makes of address va. */
  function Translate(frames: seq<Frame>, root: nat, va: nat): Translation
  {
    if va >= VA_LIMIT then Fault else Resolve(frames, Walk(frames, root, Split(va)), va)
  }

  /** boot_pgdir_walk takes every valid descriptor for a table, so it must not meet a block. */
  predicate NoBlock(frames: seq<Frame>, root: nat, v: Vpn)
  {
    Walk(frames, root, v).Stop? ==> Walk(frames, root, v).w % 2 == 0
  }

  ghost predicate SameTranslation(frames: seq<Frame>, frames': seq<Frame>, root: nat)
  {
    forall va: nat {:trigger Translate(frames', root, va)} :: Translate(frames', root, va) == Translate(frames, root, va)
  }

  /** Leaf slots stay where they are, tables only grow, and no block gets in the way of a page. */
  ghost predicate Extends(frames: seq<Frame>, frames': seq<Frame>, root: nat)
  {
    && |frames'| == |frames|
    && (forall v: Vpn {:trigger Walk(frames', root, v)} :: v.Ok() && Walk(frames, root, v).LeafAt? ==> Walk(frames', root, v) == Walk(frames, root, v))
    && (forall v: Vpn {:trigger NoBlock(frames', root, v)} :: v.Ok() && NoBlock(frames, root, v) ==> NoBlock(frames', root, v))
    && (forall i: nat {:trigger Get(frames', Slot(root, i))} :: i < ENTRIES && IsTable(Get(frames, Slot(root, i))) ==> Get(frames', Slot(root, i)) == Get(frames, Slot(root, i)))
  }

  ghost predicate RootKept(frames: seq<Frame>, frames': seq<Frame>, root: nat)
  {
    root < |frames| == |frames'| && frames'[root] == frames[root]
  }

  lemma ExtendsTrans(frames: seq<Frame>, mid: seq<Frame>, frames': seq<Frame>, root: nat)
    requires Extends(frames, mid, root) && Extends(mid, frames', root)
    ensures Extends(frames, frames', root)
  {
  }

  // -------- trees --------

  ghost predicate Upper(role: seq<Role>, s: Slot)
  {
    s.frame < |role| && s.index < ENTRIES && (role[s.frame] == Root || role[s.frame].Pmd?)
  }

  function Below(role: seq<Role>, s: Slot): Role
    requires s.frame < |role|
  {
    if role[s.frame] == Root then Pmd(s) else Pte(s)
  }

  ghost predicate ChildOk(frames: seq<Frame>, role: seq<Role>, s: Slot)
    requires Upper(role, s)
  {
    var w := Get(frames, s);
    IsTable(w) ==> Output(w) == FrameOf(w) < |role| && role[Output(w)] == Below(role, s)
  }

  /** Every table is linked from one slot only, and lies below frame `next`. */
  ghost predicate Tree(frames: seq<Frame>, role: seq<Role>, root: nat, next: nat)
  {
    && |role| == |frames| && root < next <= |frames|
    && (forall f {:trigger role[f]} :: 0 <= f < |role| ==> (role[f] == Root <==> f == root))
    && (forall f {:trigger role[f]} :: next <= f < |role| ==> role[f] == Boot)
    && (forall s {:trigger Upper(role, s)} :: Upper(role, s) ==> ChildOk(frames, role, s))
  }

  /** The tables on the way to a page know their place. */
  lemma WalkRoles(frames: seq<Frame>, role: seq<Role>, root: nat, next: nat, v: Vpn)
    requires Tree(frames, role, root, next) && v.Ok()
    ensures Upper(role, Slot(root, v.u)) && role[root] == Root
    ensures IsTable(Get(frames, Slot(root, v.u))) ==>
              var s := Slot(Output(Get(frames, Slot(root, v.u))), v.m);
              Upper(role, s) && role[s.frame] == Pmd(Slot(root, v.u))
    ensures Walk(frames, root, v).LeafAt? ==>
              var s := Walk(frames, root, v).s;
              var g := Output(Get(frames, Slot(root, v.u)));
              s.frame < |role| && s.index == v.t && role[s.frame] == Pte(Slot(g, v.m)) && g < |role| && role[g] == Pmd(Slot(root, v.u))
  {
    var s1 := Slot(root, v.u);
    assert Upper(role, s1) && ChildOk(frames, role, s1);
    if IsTable(Get(frames, s1)) {
      var s2 := Slot(Output(Get(frames, s1)), v.m);
      assert Upper(role, s2) && ChildOk(frames, role, s2);
    }
  }

  /** Different pages have different leaf slots. */
  lemma LeavesDiffer(frames: seq<Frame>, role: seq<Role>, root: nat, next: nat, v: Vpn, x: Vpn)
    requires Tree(frames, role, root, next) && v.Ok() && x.Ok()
    requires Walk(frames, root, v).LeafAt? && Walk(frames, root, x) == Walk(frames, root, v)
    ensures v == x
  {
    WalkRoles(frames, role, root, next, v);
    WalkRoles(frames, role, root, next, x);
  }

  /** Writing one third-level slot changes the translation of that page only. */
  lemma LeafWritten(frames: seq<Frame>, role: seq<Role>, root: nat, next: nat, v: Vpn, w: Word)
    requires Tree(frames, role, root, next) && v.Ok() && Walk(frames, root, v).LeafAt?
    ensures var frames' := Stored(frames, Walk(frames, root, v).s, w);
            && Tree(frames', role, root, next)
            && Extends(frames, frames', root) && Walk(frames', root, v) == Walk(frames, root, v) && RootKept(frames, frames', root)
            && Get(frames', Walk(frames, root, v).s) == w
            && (forall va {:trigger Translate(frames', root, va)} :: Split(va) != v ==> Translate(frames', root, va) == Translate(frames, root, va))
  {
    var s := Walk(frames, root, v).s;
    var frames' := Stored(frames, s, w);
    WalkRoles(frames, role, root, next, v);
    forall x | Upper(role, x) ensures Get(frames', x) == Get(frames, x) && ChildOk(frames', role, x) {
      assert ChildOk(frames, role, x);
    }
    forall x: Vpn | x.Ok() ensures Walk(frames', root, x) == Walk(frames, root, x) { WalkRoles(frames, role, root, next, x); }
    forall i: nat | i < ENTRIES ensures Get(frames', Slot(root, i)) == Get(frames, Slot(root, i)) { assert Upper(role, Slot(root, i)); }
    forall va: nat | Split(va) != v ensures Translate(frames', root, va) == Translate(frames, root, va) {
      if Walk(frames, root, Split(va)) == LeafAt(s) { LeavesDiffer(frames, role, root, next, v, Split(va)); }
    }
  }

  /** Frames that are no tables do not matter. */
  lemma UnusedChanged(frames: seq<Frame>, frames': seq<Frame>, role: seq<Role>, root: nat, next: nat, next': nat)
    requires Tree(frames, role, root, next) && |frames'| == |frames| && next <= next' <= |frames|
    requires forall f {:trigger frames'[f]} :: 0 <= f < |frames| && role[f] != Boot ==> frames'[f] == frames[f]
    ensures Tree(frames', role, root, next')
    ensures forall v: Vpn {:trigger Walk(frames', root, v)} :: v.Ok() ==> Walk(frames', root, v) == Walk(frames, root, v)
    ensures Extends(frames, frames', root) && SameTranslation(frames, frames', root) && RootKept(frames, frames', root)
  {
    assert role[root] == Root;
    forall s | Upper(role, s) ensures ChildOk(frames', role, s) { assert ChildOk(frames, role, s); }
    forall v: Vpn | v.Ok() ensures Walk(frames', root, v) == Walk(frames, root, v) { WalkRoles(frames, role, root, next, v); }
    forall va: nat ensures Translate(frames', root, va) == Translate(frames, root, va) { WalkRoles(frames, role, root, next, Split(va)); }
  }

  // -------- linking a table --------

  /** The first unused frame, cleared, becomes the table behind slot s. */
  function LinkTable(frames: seq<Frame>, s: Slot, next: nat, w: Word): seq<Frame>
  {
    Stored(Zeroed(frames, next), s, w)
  }

  ghost predicate CanLinkTable(frames: seq<Frame>, role: seq<Role>, root: nat, next: nat, s: Slot, w: Word)
  {
    && Tree(frames, role, root, next) && next < |frames| && Upper(role, s)
    && Get(frames, s) % 2 == 0 && IsTable(w) && Output(w) == FrameOf(w) == next
  }

  lemma LinkTableShape(frames: seq<Frame>, role: seq<Role>, root: nat, next: nat, s: Slot, w: Word)
    requires CanLinkTable(frames, role, root, next, s, w)
    ensures var frames' := LinkTable(frames, s, next, w);
            && |frames'| == |frames| && s.frame != next && Get(frames', s) == w
            && (forall x: Slot {:trigger Get(frames', x)} :: x.frame == next ==> Get(frames', x) == 0)
            && (forall x: Slot {:trigger Get(frames', x)} :: x.frame != next && x != s ==> Get(frames', x) == Get(frames, x))
  {
  }

  lemma LinkTableTree(frames: seq<Frame>, role: seq<Role>, root: nat, next: nat, s: Slot, w: Word)
    requires CanLinkTable(frames, role, root, next, s, w)
    ensures Tree(LinkTable(frames, s, next, w), role[next := Below(role, s)], root, next + 1)
  {
    LinkTableShape(frames, role, root, next, s, w);
    var frames' := LinkTable(frames, s, next, w);
    var role' := role[next := Below(role, s)];
    assert role[next] == Boot;
    forall x | Upper(role', x) ensures ChildOk(frames', role', x) {
      if x.frame != next {
        assert Upper(role, x) && ChildOk(frames, role, x);
      }
    }
  }

  /** The walk for v ends as before, or goes one empty table further than before. */
  ghost predicate WalkGrown(frames: seq<Frame>, frames': seq<Frame>, root: nat, v: Vpn)
  {
    var before, after := Walk(frames, root, v), Walk(frames', root, v);
    if after == before then before.LeafAt? ==> Get(frames', before.s) == Get(frames, before.s)
    else
      && before.Stop? && before.w % 2 == 0
      && match after
         case Stop(_, w) => w == 0
         case LeafAt(x) => Get(frames', x) == 0
  }

  lemma LinkTableWalk(frames: seq<Frame>, role: seq<Role>, root: nat, next: nat, s: Slot, w: Word, v: Vpn)
    requires CanLinkTable(frames, role, root, next, s, w) && v.Ok()
    ensures WalkGrown(frames, LinkTable(frames, s, next, w), root, v)
  {
    LinkTableShape(frames, role, root, next, s, w);
    WalkRoles(frames, role, root, next, v);
    assert role[next] == Boot;
    var s1 := Slot(root, v.u);
    if s != s1 && IsTable(Get(frames, s1)) {
      var s2 := Slot(Output(Get(frames, s1)), v.m);
      assert s2.frame != next;
    }
  }

  lemma GrownTranslate(frames: seq<Frame>, frames': seq<Frame>, root: nat, v: Vpn, va: nat)
    requires WalkGrown(frames, frames', root, v)
    ensures Resolve(frames', Walk(frames', root, v), va) == Resolve(frames, Walk(frames, root, v), va)
    ensures NoBlock(frames, root, v) ==> NoBlock(frames', root, v)
    ensures Walk(frames, root, v).LeafAt? ==> Walk(frames', root, v) == Walk(frames, root, v)
  {
    var before, after := Walk(frames, root, v), Walk(frames', root, v);
    ResolveGrown(frames, frames', before, after, va);
  }

  /** An empty entry resolves to a fault, at whichever level the walk ends. */
  lemma ResolveGrown(frames: seq<Frame>, frames': seq<Frame>, before: Walked, after: Walked, va: nat)
    requires if after == before then before.LeafAt? ==> Get(frames', before.s) == Get(frames, before.s)
             else before.Stop? && before.w % 2 == 0 && (match after case Stop(_, w) => w == 0 case LeafAt(x) => Get(frames', x) == 0)
    ensures Resolve(frames', after, va) == Resolve(frames, before, va)
  {
    if after != before {
      EvenFaults(before.w);
    }
  }

  lemma EvenFaults(w: Word)
    ensures w % 2 == 0 ==> w % 4 != 1 && !IsTable(w)
  {
  }

  /** Linking an empty table changes no translation, and brings no block in the way of any page. */
  lemma LinkTableRefines(frames: seq<Frame>, role: seq<Role>, root: nat, next: nat, s: Slot, w: Word)
    requires CanLinkTable(frames, role, root, next, s, w)
    ensures var frames' := LinkTable(frames, s, next, w);
            && Tree(frames', role[next := Below(role, s)], root, next + 1)
            && Extends(frames, frames', root) && SameTranslation(frames, frames', root)
            && (s.frame != root ==> RootKept(frames, frames', root))
  {
    assert role[root] == Root && role[next] == Boot;
    LinkTableTree(frames, role, root, next, s, w);
    LinkTableExtends(frames, role, root, next, s, w);
    var frames' := LinkTable(frames, s, next, w);
    forall va: nat ensures Translate(frames', root, va) == Translate(frames, root, va) {
      LinkTableWalk(frames, role, root, next, s, w, Split(va));
      GrownTranslate(frames, frames', root, Split(va), va);
    }
  }

  lemma LinkTableExtends(frames: seq<Frame>, role: seq<Role>, root: nat, next: nat, s: Slot, w: Word)
    requires CanLinkTable(frames, role, root, next, s, w)
    ensures Extends(frames, LinkTable(frames, s, next, w), root)
  {
    var frames' := LinkTable(frames, s, next, w);
    LinkTableShape(frames, role, root, next, s, w);
    assert role[next] == Boot;
    forall v: Vpn | v.Ok()
      ensures NoBlock(frames, root, v) ==> NoBlock(frames', root, v)
      ensures Walk(frames, root, v).LeafAt? ==> Walk(frames', root, v) == Walk(frames, root, v)
    {
      LinkTableWalk(frames, role, root, next, s, w, v);
      GrownTranslate(frames, frames', root, v, 0);
    }
  }
}
