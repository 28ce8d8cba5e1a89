/**
 lib/helpfunct.c: bcopy and bzero on an array of bytes, word by word and then
 byte by byte.
 */
module HelpFunct {

  type byte = x: int | 0 <= x < 256

  /** Memory with the n bytes at src, as they were, written at dst. */
  function Copied(m: seq<byte>, src: nat, dst: nat, n: nat): (r: seq<byte>)
    requires src + n <= |m| && dst + n <= |m|
    ensures |r| == |m|
  {
    seq(|m|, i requires 0 <= i < |m| => if dst <= i < dst + n then m[src + (i - dst)] else m[i])
  }

  lemma CopiedAt(m: seq<byte>, src: nat, dst: nat, n: nat, i: nat)
    requires src + n <= |m| && dst + n <= |m| && i < |m|
    ensures Copied(m, src, dst, n)[i] == if dst <= i < dst + n then m[src + (i - dst)] else m[i]
  {
  }

  /** One round of the copy. */
  function OneRound(m: seq<byte>, src: nat, dst: nat, len: nat): (r: seq<byte>)
    requires len > 0 && src + len <= |m| && dst + len <= |m|
    ensures |r| == |m|
  {
    Copied(m, src, dst, Width(len))
  }

  function Width(len: nat): (k: nat)
    requires len > 0
    ensures 1 <= k <= len && k <= 8
  {
    if len >= 8 then 8 else 1
  }

  /** What the two loops compute: 8 bytes at a time while so many are left, then single bytes. */
  function Bcopy(m: seq<byte>, src: nat, dst: nat, len: nat): (r: seq<byte>)
    requires src + len <= |m| && dst + len <= |m|
    ensures |r| == |m|
    decreases len
  {
    if len == 0 then m else Bcopy(OneRound(m, src, dst, len), src + Width(len), dst + Width(len), len - Width(len))
  }

  /** No overlap of a kind that lets a byte be overwritten before it is read. */
  predicate Safe(src: nat, dst: nat, len: nat)
  {
    dst <= src || dst >= src + len
  }

  lemma {:induction false} BcopyOutside(m: seq<byte>, src: nat, dst: nat, len: nat, i: nat)
    requires src + len <= |m| && dst + len <= |m| && i < |m| && !(dst <= i < dst + len)
    ensures Bcopy(m, src, dst, len)[i] == m[i]
    decreases len
  {
    if len == 0 {
    } else {
      var k := Width(len);
      CopiedAt(m, src, dst, k, i);
      BcopyOutside(OneRound(m, src, dst, len), src + k, dst + k, len - k, i);
    }
  }

  lemma RoundAt(m: seq<byte>, src: nat, dst: nat, len: nat, i: nat)
    requires len > 0 && i < len && src + len <= |m| && dst + len <= |m| && Safe(src, dst, len)
    ensures i < Width(len) ==> OneRound(m, src, dst, len)[dst + i] == m[src + i]
    ensures i >= Width(len) ==> OneRound(m, src, dst, len)[src + i] == m[src + i]
  {
  }

  lemma {:induction false} BcopyInside(m: seq<byte>, src: nat, dst: nat, len: nat, i: nat)
    requires src + len <= |m| && dst + len <= |m| && i < len && Safe(src, dst, len)
    ensures Bcopy(m, src, dst, len)[dst + i] == m[src + i]
    decreases len
  {
    var k := Width(len);
    var m1 := OneRound(m, src, dst, len);
    RoundAt(m, src, dst, len, i);
    if i < k {
      BcopyOutside(m1, src + k, dst + k, len - k, dst + i);
    } else {
      BcopyInside(m1, src + k, dst + k, len - k, i - k);
    }
  }

  /** For every length and alignment: unless the destination starts inside the source, the copy is ideal. */
  lemma BcopyIsIdeal(m: seq<byte>, src: nat, dst: nat, len: nat)
    requires src + len <= |m| && dst + len <= |m| && (Safe(src, dst, len) || len == 8)
    ensures Bcopy(m, src, dst, len) == Copied(m, src, dst, len)
  {
    var r := Bcopy(m, src, dst, len);
    if Safe(src, dst, len) {
      forall i | 0 <= i < |m| ensures r[i] == Copied(m, src, dst, len)[i] {
        CopiedAt(m, src, dst, len, i);
        if dst <= i < dst + len { BcopyInside(m, src, dst, len, i - dst); } else { BcopyOutside(m, src, dst, len, i); }
      }
    }
  }

  function Zeros(n: nat): (z: seq<byte>)
    ensures |z| == n && forall i :: 0 <= i < n ==> z[i] == 0
  {
    seq(n, _ => 0)
  }

  lemma {:induction false} BcopyZeros(n: nat, src: nat, dst: nat, len: nat)
    requires src + len <= n && dst + len <= n
    ensures Bcopy(Zeros(n), src, dst, len) == Zeros(n)
    decreases len
  {
    if len == 0 {
    } else {
      var k := Width(len);
      assert OneRound(Zeros(n), src, dst, len) == Zeros(n);
      BcopyZeros(n, src + k, dst + k, len - k);
    }
  }

  /** A byte that is overwritten before it is read: one memory that a forward overlap spoils. */
  lemma OverlapSpoils(n: nat, src: nat, dst: nat, len: nat) returns (m: seq<byte>)
    requires src + len <= n && dst + len <= n && !Safe(src, dst, len) && len != 8
    ensures |m| == n && Bcopy(m, src, dst, len) != Copied(m, src, dst, len)
  {
    var d := dst - src;
    var k := Width(len);
    var j := if d < k then k else d;
    m := Zeros(n)[src + j := 1];
    var m1 := OneRound(m, src, dst, len);
    forall i | 0 <= i < n ensures m1[i] == 0 { CopiedAt(m, src, dst, k, i); }
    assert m1 == Zeros(n);
    BcopyZeros(n, src + k, dst + k, len - k);
    CopiedAt(m, src, dst, len, dst + j);
  }

  /** The exact condition: bcopy copies every memory faithfully if and only if the destination does not start inside the source, or one word is copied. */
  lemma BcopyIdealIff(n: nat, src: nat, dst: nat, len: nat)
    requires src + len <= n && dst + len <= n
    ensures (forall m: seq<byte> {:trigger Bcopy(m, src, dst, len)} :: |m| == n ==> Bcopy(m, src, dst, len) == Copied(m, src, dst, len))
            <==> Safe(src, dst, len) || len == 8
  {
    if Safe(src, dst, len) || len == 8 {
      forall m: seq<byte> | |m| == n ensures Bcopy(m, src, dst, len) == Copied(m, src, dst, len) { BcopyIsIdeal(m, src, dst, len); }
    } else {
      var m := OverlapSpoils(n, src, dst, len);
    }
  }

  /** `*(long *)dst = *(long *)src`: eight bytes are loaded, then stored. */
  method CopyWord(m: array<byte>, src: nat, dst: nat)
    requires src + 8 <= m.Length && dst + 8 <= m.Length
    modifies m
    ensures m[..] == Copied(old(m[..]), src, dst, 8)
  {
    forall k | 0 <= k < 8 {
      m[dst + k] := m[src + k];
    }
  }

  method CopyByte(m: array<byte>, src: nat, dst: nat)
    requires src < m.Length && dst < m.Length
    modifies m
    ensures m[..] == Copied(old(m[..]), src, dst, 1)
  {
    m[dst] := m[src];
  }

  /** The second loop: what is left after the words. */
  method CopyBytes(m: array<byte>, src: nat, dst: nat, max: nat)
    requires dst <= max < dst + 8 && src + (max - dst) <= m.Length && max <= m.Length
    modifies m
    ensures m[..] == Bcopy(old(m[..]), src, dst, max - dst)
  {
    var s, d := src, dst;
    ghost var all := Bcopy(m[..], src, dst, max - dst);
    while d < max
      invariant dst <= d <= max && s - src == d - dst
      invariant Bcopy(m[..], s, d, max - d) == all
    {
      CopyByte(m, s, d);
      d := d + 1;
      s := s + 1;
    }
  }

  /** A round of the first loop, with `left` bytes to go. */
  method WordRound(m: array<byte>, src: nat, dst: nat, ghost left: nat)
    requires left >= 8 && src + left <= m.Length && dst + left <= m.Length
    modifies m
    ensures Bcopy(m[..], src + 8, dst + 8, left - 8) == Bcopy(old(m[..]), src, dst, left)
  {
    CopyWord(m, src, dst);
  }

  /** bcopy */
  method BcopyInPlace(m: array<byte>, src: nat, dst: nat, len: nat)
    requires src + len <= m.Length && dst + len <= m.Length
    modifies m
    ensures m[..] == Bcopy(old(m[..]), src, dst, len)
  {
    var s, d, max := src, dst, dst + len;
    ghost var all := Bcopy(m[..], src, dst, len);
    while d + 7 < max
      invariant dst <= d <= max && s - src == d - dst
      invariant Bcopy(m[..], s, d, max - d) == all
    {
      WordRound(m, s, d, max - d);
      d := d + 8;
      s := s + 8;
    }
    CopyBytes(m, s, d, max);
  }

  /** bzero clears its range and nothing else. */
  method Bzero(m: array<byte>, b: nat, len: nat)
    requires b + len <= m.Length
    modifies m
    ensures forall i :: 0 <= i < m.Length ==> m[i] == if b <= i < b + len then 0 else old(m[i])
  {
    var p, max := b, b + len;
    while p + 7 < max
      invariant b <= p <= max
      invariant forall i :: 0 <= i < m.Length ==> m[i] == if b <= i < p then 0 else old(m[i])
    {
      forall k | 0 <= k < 8 {
        m[p + k] := 0;
      }
      p := p + 8;
    }
    while p < max
      invariant b <= p <= max
      invariant forall i :: 0 <= i < m.Length ==> m[i] == if b <= i < p then 0 else old(m[i])
    {
      m[p] := 0;
      p := p + 1;
    }
  }
}
