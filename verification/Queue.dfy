/**
 include/queue.h: doubly linked lists whose nodes carry their own links. The
 nodes are elements of an array (`pages[]`, `envs[]`), so a node is its index.
 `le_prev` is the address of the pointer that leads to the node: either the
 list head or the `le_next` of another node.
 */
module Queue {

  datatype Link = Null | Node(id: nat)

  datatype Place = Nowhere | Head | NextOf(id: nat)

  ghost predicate Distinct(s: seq<nat>)
  {
    forall i, j :: 0 <= i < j < |s| ==> s[i] != s[j]
  }

  /** s without the first occurrence of x. */
  ghost function Without(s: seq<nat>, x: nat): seq<nat>
  {
    if s == [] then [] else if s[0] == x then s[1..] else [s[0]] + Without(s[1..], x)
  }

  /** s with x put just before the first occurrence of y. */
  ghost function Before(s: seq<nat>, y: nat, x: nat): seq<nat>
  {
    if s == [] then [] else if s[0] == y then [x] + s else [s[0]] + Before(s[1..], y, x)
  }

  /** s with x put just after the first occurrence of y. */
  ghost function After(s: seq<nat>, y: nat, x: nat): seq<nat>
  {
    if s == [] then [] else if s[0] == y then [y, x] + s[1..] else [s[0]] + After(s[1..], y, x)
  }

  lemma HeadApart(h: nat, a: seq<nat>, b: seq<nat>, s: seq<nat>)
    requires s == a + b
    ensures [h] + s == ([h] + a) + b
  {
  }

  lemma {:induction false} EditsAt(s: seq<nat>, k: nat, x: nat)
    requires Distinct(s) && k < |s|
    ensures Without(s, s[k]) == s[..k] + s[k + 1..]
    ensures Before(s, s[k], x) == s[..k] + [x] + s[k..]
    ensures After(s, s[k], x) == s[..k + 1] + [x] + s[k + 1..]
  {
    if k == 0 {
    } else {
      var t, y := s[1..], s[k];
      EditsAt(t, k - 1, x);
      assert s[..k] == [s[0]] + t[..k - 1] && s[..k + 1] == [s[0]] + t[..k];
      assert s[k..] == t[k - 1..] && s[k + 1..] == t[k..] && y == t[k - 1] && s[0] != y;
      HeadApart(s[0], t[..k - 1], t[k..], Without(t, y));
      HeadApart(s[0], t[..k - 1] + [x], t[k - 1..], Before(t, y, x));
      HeadApart(s[0], t[..k - 1], [x], t[..k - 1] + [x]);
      HeadApart(s[0], t[..k] + [x], t[k..], After(t, y, x));
      HeadApart(s[0], t[..k], [x], t[..k] + [x]);
    }
  }

  /** Removing a node undoes inserting it, wherever it was put. */
  lemma {:induction false} WithoutUndoes(s: seq<nat>, y: nat, x: nat)
    requires x !in s && y in s
    ensures Without([x] + s, x) == s
    ensures Without(Before(s, y, x), x) == s
    ensures Without(After(s, y, x), x) == s
  {
    if s[0] == y {
      assert [y, x] + s[1..] == [y] + ([x] + s[1..]);
      assert Without([x] + s[1..], x) == s[1..];
    } else {
      assert x !in s[1..];
      WithoutUndoes(s[1..], y, x);
      assert Before(s, y, x)[1..] == Before(s[1..], y, x);
      assert After(s, y, x)[1..] == After(s[1..], y, x);
    }
  }

  ghost function LinkAt(s: seq<nat>, k: nat): Link
  {
    if k < |s| then Node(s[k]) else Null
  }

  ghost function PlaceAt(s: seq<nat>, k: nat): Place
    requires k <= |s|
  {
    if k == 0 then Head else NextOf(s[k - 1])
  }

  /** The links of the member at position k lead to its neighbours, or to the head. */
  ghost predicate LinkedAt(next: seq<Link>, prev: seq<Place>, s: seq<nat>, k: nat)
    requires k < |s|
  {
    && s[k] < |next| && s[k] < |prev|
    && next[s[k]] == LinkAt(s, k + 1)
    && prev[s[k]] == PlaceAt(s, k)
  }

  /** The head and the links spell out the sequence s in both directions. */
  ghost predicate Linked(first: Link, next: seq<Link>, prev: seq<Place>, s: seq<nat>)
  {
    && Distinct(s)
    && first == LinkAt(s, 0)
    && forall k {:trigger LinkedAt(next, prev, s, k)} :: 0 <= k < |s| ==> LinkedAt(next, prev, s, k)
  }

  ghost function Inserted(s: seq<nat>, j: nat, x: nat): seq<nat>
    requires j <= |s|
  {
    s[..j] + [x] + s[j..]
  }

  ghost function Deleted(s: seq<nat>, j: nat): seq<nat>
    requires j < |s|
  {
    s[..j] + s[j + 1..]
  }

  lemma InsertedDistinct(s: seq<nat>, j: nat, x: nat)
    requires Distinct(s) && j <= |s| && x !in s
    ensures Distinct(Inserted(s, j, x))
  {
  }

  /** Every insertion macro amounts to these five link updates at some position j. */
  lemma InsertedLinked(first: Link, next: seq<Link>, prev: seq<Place>, s: seq<nat>, j: nat, x: nat,
                       first': Link, next': seq<Link>, prev': seq<Place>)
    requires Linked(first, next, prev, s) && j <= |s|
    requires x !in s && x < |next| && x < |prev|
    requires first' == if j == 0 then Node(x) else first
    requires |next'| == |next| && |prev'| == |prev|
    requires next'[x] == LinkAt(s, j) && prev'[x] == PlaceAt(s, j)
    requires j > 0 ==> s[j - 1] < |next| && next'[s[j - 1]] == Node(x)
    requires j < |s| ==> s[j] < |prev| && prev'[s[j]] == NextOf(x)
    requires forall i {:trigger next'[i]} :: 0 <= i < |next| && i != x && (j > 0 ==> i != s[j - 1]) ==> next'[i] == next[i]
    requires forall i {:trigger prev'[i]} :: 0 <= i < |prev| && i != x && (j < |s| ==> i != s[j]) ==> prev'[i] == prev[i]
    ensures Linked(first', next', prev', Inserted(s, j, x))
  {
    var s' := Inserted(s, j, x);
    InsertedDistinct(s, j, x);
    forall k | 0 <= k < |s'| ensures LinkedAt(next', prev', s', k) {
      if k < j {
        assert LinkedAt(next, prev, s, k) && s'[k] == s[k];
        assert k > 0 ==> s'[k - 1] == s[k - 1];
      } else if k > j {
        assert LinkedAt(next, prev, s, k - 1) && s'[k] == s[k - 1];
        assert k < |s| ==> s'[k + 1] == s[k];
      }
    }
  }

  /** LIST_REMOVE amounts to these two link updates. */
  lemma DeletedLinked(first: Link, next: seq<Link>, prev: seq<Place>, s: seq<nat>, j: nat,
                      first': Link, next': seq<Link>, prev': seq<Place>)
    requires Linked(first, next, prev, s) && j < |s|
    requires first' == if j == 0 then LinkAt(s, 1) else first
    requires |next'| == |next| && |prev'| == |prev|
    requires j > 0 ==> s[j - 1] < |next| && next'[s[j - 1]] == LinkAt(s, j + 1)
    requires j + 1 < |s| ==> s[j + 1] < |prev| && prev'[s[j + 1]] == PlaceAt(s, j)
    requires forall i {:trigger next'[i]} :: 0 <= i < |next| && (j > 0 ==> i != s[j - 1]) ==> next'[i] == next[i]
    requires forall i {:trigger prev'[i]} :: 0 <= i < |prev| && (j + 1 < |s| ==> i != s[j + 1]) ==> prev'[i] == prev[i]
    ensures Linked(first', next', prev', Deleted(s, j))
  {
    var s' := Deleted(s, j);
    forall k | 0 <= k < |s'| ensures LinkedAt(next', prev', s', k) {
      if k < j {
        assert LinkedAt(next, prev, s, k) && s'[k] == s[k];
        assert k > 0 ==> s'[k - 1] == s[k - 1];
      } else {
        assert LinkedAt(next, prev, s, k + 1) && s'[k] == s[k + 1];
        assert k + 2 < |s| ==> s'[k + 1] == s[k + 2];
      }
    }
  }

  class List {
    var first: Link               // lh_first
    const next: array<Link>       // le_next of every node
    const prev: array<Place>      // le_prev of every node
    ghost var elems: seq<nat>

    ghost predicate Valid()
      reads this, next, prev
    {
      next.Length == prev.Length && Linked(first, next[..], prev[..], elems)
    }

    /** A node array of n nodes and an empty head (LIST_INIT). */
    constructor (n: nat)
      ensures Valid() && elems == [] && next.Length == n
      ensures fresh(next) && fresh(prev)
    {
      first := Null;
      next := new Link[n](_ => Null);
      prev := new Place[n](_ => Nowhere);
      elems := [];
    }

    /** LIST_INIT on a head in use: its former members become nodes of no list. */
    method Clear()
      requires next.Length == prev.Length
      modifies this
      ensures Valid() && elems == []
    {
      first := Null;
      elems := [];
    }

    /** `*place = link` */
    method Store(place: Place, link: Link)
      requires place.NextOf? ==> place.id < next.Length
      requires place != Nowhere
      modifies this`first, next
      ensures place == Head ==> first == link && next[..] == old(next[..])
      ensures place.NextOf? ==> first == old(first) && next[..] == old(next[..])[place.id := link]
    {
      if place == Head {
        first := link;
      } else {
        next[place.id] := link;
      }
    }

    /** LIST_INSERT_HEAD */
    method InsertHead(x: nat)
      requires Valid() && x < next.Length && x !in elems
      modifies this, next, prev
      ensures Valid() && elems == [x] + old(elems)
    {
      ghost var f, nx, pv := first, next[..], prev[..];
      next[x] := first;
      if next[x] != Null {
        assert LinkedAt(nx, pv, elems, 0);
        prev[first.id] := NextOf(x);
      }
      first := Node(x);
      prev[x] := Head;
      InsertedLinked(f, nx, pv, elems, 0, x, first, next[..], prev[..]);
      assert Inserted(elems, 0, x) == [x] + elems;
      elems := [x] + elems;
    }

    /** LIST_INSERT_AFTER */
    method InsertAfter(y: nat, x: nat)
      requires Valid() && y in elems && x < next.Length && x !in elems
      modifies this, next, prev
      ensures Valid() && elems == After(old(elems), y, x)
    {
      ghost var k :| 0 <= k < |elems| && elems[k] == y;
      ghost var f, nx, pv := first, next[..], prev[..];
      assert LinkedAt(nx, pv, elems, k);
      next[x] := next[y];
      prev[x] := NextOf(y);
      if next[y] != Null {
        assert LinkedAt(nx, pv, elems, k + 1);
        prev[next[y].id] := NextOf(x);
      }
      next[y] := Node(x);
      InsertedLinked(f, nx, pv, elems, k + 1, x, first, next[..], prev[..]);
      EditsAt(elems, k, x);
      elems := Inserted(elems, k + 1, x);
    }

    /** LIST_INSERT_BEFORE */
    method InsertBefore(y: nat, x: nat)
      requires Valid() && y in elems && x < next.Length && x !in elems
      modifies this, next, prev
      ensures Valid() && elems == Before(old(elems), y, x)
    {
      ghost var k :| 0 <= k < |elems| && elems[k] == y;
      ghost var f, nx, pv := first, next[..], prev[..];
      assert LinkedAt(nx, pv, elems, k);
      if k > 0 { assert LinkedAt(nx, pv, elems, k - 1); }
      prev[x] := prev[y];
      next[x] := Node(y);
      Store(prev[y], Node(x));
      prev[y] := NextOf(x);
      InsertedLinked(f, nx, pv, elems, k, x, first, next[..], prev[..]);
      EditsAt(elems, k, x);
      elems := Inserted(elems, k, x);
    }

    /** LIST_INSERT_TAIL: the new node's own `le_next` is the cursor of the search for the last node. */
    method InsertTail(x: nat)
      requires Valid() && x < next.Length && x !in elems
      modifies this, next, prev
      ensures Valid() && elems == old(elems) + [x]
    {
      ghost var f, nx, pv := first, next[..], prev[..];
      if first == Null {
        InsertHead(x);
        assert old(elems) == [];
      } else {
        next[x] := first;
        ghost var k := 0;
        assert LinkedAt(nx, pv, elems, 0);
        while next[next[x].id] != Null
          invariant 0 <= k < |elems| && next[x] == Node(elems[k]) && LinkedAt(nx, pv, elems, k)
          invariant forall i :: 0 <= i < next.Length && i != x ==> next[i] == nx[i]
          decreases |elems| - k
          modifies next
        {
          assert LinkedAt(nx, pv, elems, k + 1);
          next[x] := next[next[x].id];
          k := k + 1;
        }
        prev[x] := NextOf(next[x].id);
        next[next[x].id] := Node(x);
        next[x] := Null;
        InsertedLinked(f, nx, pv, elems, k + 1, x, first, next[..], prev[..]);
        assert Inserted(elems, k + 1, x) == elems + [x];
        elems := elems + [x];
      }
    }

    /** LIST_REMOVE: no traversal, whichever member it is. */
    method Remove(x: nat)
      requires Valid() && x in elems
      modifies this, next, prev
      ensures Valid() && elems == Without(old(elems), x)
    {
      ghost var k :| 0 <= k < |elems| && elems[k] == x;
      ghost var f, nx, pv := first, next[..], prev[..];
      assert LinkedAt(nx, pv, elems, k);
      if k > 0 { assert LinkedAt(nx, pv, elems, k - 1); }
      if next[x] != Null {
        assert LinkedAt(nx, pv, elems, k + 1);
        prev[next[x].id] := prev[x];
      }
      Store(prev[x], next[x]);
      DeletedLinked(f, nx, pv, elems, k, first, next[..], prev[..]);
      EditsAt(elems, k, x);
      elems := Deleted(elems, k);
    }

    /** LIST_FOREACH visits the members in order, each once. */
    method Traverse() returns (visited: seq<nat>)
      requires Valid()
      ensures visited == elems
    {
      visited := [];
      var at := first;
      while at != Null
        invariant |visited| <= |elems| && visited == elems[..|visited|]
        invariant at == LinkAt(elems, |visited|)
        decreases |elems| - |visited|
      {
        assert LinkedAt(next[..], prev[..], elems, |visited|);
        visited := visited + [at.id];
        at := next[at.id];
      }
    }
  }
}
