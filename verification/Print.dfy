/**
 lib/print.c: number, character and string formatting in a fixed buffer, and
 the format loop lp_Print.
 */
module Print {
  import opened Bits

  const LP_MAX_BUF: nat := 1000

  // -------- numerals --------

  function Digit(d: nat, upcase: bool): char
    requires d < 16
  {
    if d <= 9 then '0' + d as char else if upcase then 'A' + (d - 10) as char else 'a' + (d - 10) as char
  }

  function DigitValue(c: char): nat
  {
    if '0' <= c <= '9' then (c - '0') as nat
    else if 'A' <= c <= 'F' then (c - 'A') as nat + 10
    else if 'a' <= c <= 'f' then (c - 'a') as nat + 10
    else 0
  }

  /** The digits of u, least significant first, as the do-while loop stores them. */
  function DigitsUp(u: nat, base: nat, upcase: bool): (s: string)
    requires 2 <= base <= 16
    ensures |s| >= 1
    decreases u
  {
    [Digit(u % base, upcase)] + if u / base != 0 then DigitsUp(u / base, base, upcase) else []
  }

  function Reversed(s: string): (r: string)
    ensures |r| == |s| && forall i :: 0 <= i < |s| ==> r[i] == s[|s| - 1 - i]
  {
    seq(|s|, i requires 0 <= i < |s| => s[|s| - 1 - i])
  }

  function Repeat(c: char, n: nat): (s: string)
    ensures |s| == n && forall i :: 0 <= i < n ==> s[i] == c
  {
    seq(n, _ => c)
  }

  function Numeral(u: nat, base: nat, upcase: bool): (s: string)
    requires 2 <= base <= 16
    ensures |s| >= 1
  {
    Reversed(DigitsUp(u, base, upcase))
  }

  function Sign(neg: bool): string { if neg then "-" else "" }

  /** A numeral with its sign and padding, in one of three modes. */
  function Field(n: string, neg: bool, pad: nat, left: bool, padc: char): (s: string)
  {
    if left then Sign(neg) + n + Repeat(' ', pad)
    else if neg && padc == '0' then Sign(neg) + Repeat('0', pad) + n
    else Repeat(padc, pad) + Sign(neg) + n
  }

  /** How many padding characters a body of length n takes. */
  function Pad(width: nat, n: nat): nat { if width > n then width - n else 0 }

  /** The text PrintNum leaves in the buffer. */
  function NumText(u: nat, base: nat, neg: bool, width: nat, left: bool, padc: char, upcase: bool): (s: string)
    requires 2 <= base <= 16
  {
    var n := Numeral(u, base, upcase);
    Field(n, neg, Pad(width, |Sign(neg)| + |n|), left, padc)
  }

  // -------- reading a number back --------

  function Value(s: string, base: nat): nat
  {
    if s == "" then 0 else Value(s[..|s| - 1], base) * base + DigitValue(s[|s| - 1])
  }

  /** Sign and magnitude. */
  function Parse(s: string, base: nat): (bool, nat)
  {
    if s != "" && s[0] == '-' then (true, Value(s[1..], base)) else (false, Value(s, base))
  }

  function DropLeading(s: string): string
  {
    if s != "" && s[0] == ' ' then DropLeading(s[1..]) else s
  }

  function DropTrailing(s: string): string
  {
    if s != "" && s[|s| - 1] == ' ' then DropTrailing(s[..|s| - 1]) else s
  }

  /** Removes the padding a mode prescribes. Zeros need no removing: they do not change the value. */
  function Unpad(s: string, left: bool, padc: char): string
  {
    if left then DropTrailing(s) else if padc == ' ' then DropLeading(s) else s
  }

  /** A numeral is the numeral of the quotient, if any, followed by the last digit. */
  lemma NumeralStep(u: nat, base: nat, upcase: bool)
    requires 2 <= base <= 16
    ensures Numeral(u, base, upcase) == (if u / base != 0 then Numeral(u / base, base, upcase) else "") + [Digit(u % base, upcase)]
  {
    var d: string, more: string := [Digit(u % base, upcase)], if u / base != 0 then DigitsUp(u / base, base, upcase) else "";
    assert DigitsUp(u, base, upcase) == d + more;
    ReversedAppend(d, more);
    assert Reversed(d) == d && Reversed("") == "";
  }

  lemma ValueSnoc(s: string, c: char, base: nat)
    ensures Value(s + [c], base) == Value(s, base) * base + DigitValue(c)
  {
  }

  predicate Plain(s: string)
  {
    forall i :: 0 <= i < |s| ==> s[i] != '-' && s[i] != ' '
  }

  lemma QuotientAndRest(u: nat, base: nat) returns (q: nat, r: nat)
    requires base >= 2
    ensures q == u / base && r == u % base && r < base && q * base + r == u
    ensures u > 0 ==> q < u
  {
    q, r := u / base, u % base;
    assert q * base + r == u;
    HalfAtMost(q, base, r, u);
  }

  lemma DigitAppended(n: string, d: nat, base: nat, upcase: bool)
    requires Plain(n) && d < 16
    ensures Value(n + [Digit(d, upcase)], base) == Value(n, base) * base + d && Plain(n + [Digit(d, upcase)])
  {
  }

  lemma {:induction false} NumeralReads(u: nat, base: nat, upcase: bool)
    requires 2 <= base <= 16
    ensures Value(Numeral(u, base, upcase), base) == u && Plain(Numeral(u, base, upcase))
    decreases u
  {
    var q, r := QuotientAndRest(u, base);
    NumeralStep(u, base, upcase);
    if q != 0 {
      NumeralReads(q, base, upcase);
      DigitAppended(Numeral(q, base, upcase), r, base, upcase);
    } else {
      DigitAppended("", r, base, upcase);
    }
  }

  lemma {:induction false} ZerosAddNothing(k: nat, n: string, base: nat)
    ensures Value(Repeat('0', k) + n, base) == Value(n, base)
    decreases |n|, k
  {
    var s := Repeat('0', k) + n;
    if n != "" {
      assert s[..|s| - 1] == Repeat('0', k) + n[..|n| - 1];
      ZerosAddNothing(k, n[..|n| - 1], base);
    } else if k > 0 {
      assert s[..|s| - 1] == Repeat('0', k - 1) + n;
      ZerosAddNothing(k - 1, n, base);
    }
  }

  lemma {:induction false} LeadingDropped(k: nat, n: string)
    requires n != "" && n[0] != ' '
    ensures DropLeading(Repeat(' ', k) + n) == n
    decreases k
  {
    var s := Repeat(' ', k) + n;
    if k > 0 {
      assert s[1..] == Repeat(' ', k - 1) + n;
      LeadingDropped(k - 1, n);
    } else {
      assert s == n;
    }
  }

  lemma {:induction false} TrailingDropped(n: string, k: nat)
    requires n != "" && n[|n| - 1] != ' '
    ensures DropTrailing(n + Repeat(' ', k)) == n
    decreases k
  {
    var s := n + Repeat(' ', k);
    if k > 0 {
      assert s[..|s| - 1] == n + Repeat(' ', k - 1);
      TrailingDropped(n, k - 1);
    } else {
      assert s == n;
    }
  }

  /** The field is as wide as asked for, or as the number needs. */
  lemma NumTextLength(u: nat, base: nat, neg: bool, width: nat, left: bool, padc: char, upcase: bool)
    requires 2 <= base <= 16
    ensures var actual := |Sign(neg)| + |Numeral(u, base, upcase)|;
            |NumText(u, base, neg, width, left, padc, upcase)| == if width > actual then width else actual
  {
  }

  lemma SignedReads(neg: bool, n: string, base: nat)
    requires n != "" && n[0] != '-'
    ensures Parse(Sign(neg) + n, base) == (neg, Value(n, base))
  {
    if neg { assert (Sign(neg) + n)[1..] == n; } else { assert Sign(neg) + n == n; }
  }

  lemma BlanksBehindRead(n: string, base: nat, neg: bool, pad: nat)
    requires n != "" && Plain(n)
    ensures Parse(DropTrailing(Sign(neg) + n + Repeat(' ', pad)), base) == (neg, Value(n, base))
  {
    var body := Sign(neg) + n;
    SignedReads(neg, n, base);
    assert body[|body| - 1] == n[|n| - 1];
    TrailingDropped(body, pad);
  }

  lemma BlanksBeforeRead(n: string, base: nat, neg: bool, pad: nat)
    requires n != "" && Plain(n)
    ensures Parse(DropLeading(Repeat(' ', pad) + Sign(neg) + n), base) == (neg, Value(n, base))
  {
    var body := Sign(neg) + n;
    SignedReads(neg, n, base);
    assert body[0] == if neg then '-' else n[0];
    LeadingDropped(pad, body);
    assert Repeat(' ', pad) + Sign(neg) + n == Repeat(' ', pad) + body;
  }

  lemma ZeroModeReads(n: string, base: nat, neg: bool, pad: nat)
    requires n != "" && Plain(n)
    ensures Parse(Sign(neg) + Repeat('0', pad) + n, base) == (neg, Value(n, base))
  {
    var m := Repeat('0', pad) + n;
    ZerosAddNothing(pad, n, base);
    SignedReads(neg, m, base);
    assert Sign(neg) + Repeat('0', pad) + n == Sign(neg) + m;
  }

  /** The round trip, for every number, base, sign, width and padding mode. */
  lemma NumTextReads(u: nat, base: nat, neg: bool, width: nat, left: bool, padc: char, upcase: bool)
    requires 2 <= base <= 16 && (padc == ' ' || padc == '0')
    ensures Parse(Unpad(NumText(u, base, neg, width, left, padc, upcase), left, padc), base) == (neg, u)
  {
    var n := Numeral(u, base, upcase);
    var pad := Pad(width, |Sign(neg)| + |n|);
    NumeralReads(u, base, upcase);
    BlanksBehindRead(n, base, neg, pad);
    BlanksBeforeRead(n, base, neg, pad);
    ZeroModeReads(n, base, neg, pad);
    assert !neg ==> Repeat('0', pad) + Sign(neg) + n == Sign(neg) + Repeat('0', pad) + n;
  }

  // -------- what a field looks like --------

  /** A digit of the base, in lower or in upper case. */
  predicate DigitOf(c: char, base: nat, upcase: bool)
  {
    DigitValue(c) < base && ('0' <= c <= '9' || (if upcase then 'A' <= c <= 'F' else 'a' <= c <= 'f'))
  }

  /** The numeral of u: digits of the base that read as u, without leading zeros. NumeralUnique says there is one only. */
  ghost predicate IsNumeral(n: string, u: nat, base: nat, upcase: bool)
  {
    && n != "" && (|n| > 1 ==> n[0] != '0')
    && AllDigits(n, base, upcase) && Value(n, base) == u
  }

  lemma DigitIsOf(d: nat, base: nat, upcase: bool)
    requires d < base <= 16
    ensures DigitOf(Digit(d, upcase), base, upcase) && DigitValue(Digit(d, upcase)) == d
    ensures Digit(d, upcase) == '0' <==> d == 0
  {
  }

  ghost predicate AllDigits(n: string, base: nat, upcase: bool)
  {
    forall i :: 0 <= i < |n| ==> DigitOf(n[i], base, upcase)
  }

  lemma OneMoreDigit(n: string, d: nat, base: nat, upcase: bool)
    requires AllDigits(n, base, upcase) && d < base <= 16
    ensures AllDigits(n + [Digit(d, upcase)], base, upcase)
    ensures (n == "" ==> d > 0) && (n != "" ==> n[0] != '0') ==> (n + [Digit(d, upcase)])[0] != '0'
  {
    DigitIsOf(d, base, upcase);
  }

  lemma {:induction false} NumeralDigitsOf(u: nat, base: nat, upcase: bool)
    requires 2 <= base <= 16
    ensures AllDigits(Numeral(u, base, upcase), base, upcase) && (u > 0 ==> Numeral(u, base, upcase)[0] != '0')
    ensures u == 0 ==> |Numeral(u, base, upcase)| == 1
    decreases u
  {
    var q, r := QuotientAndRest(u, base);
    NumeralStep(u, base, upcase);
    if q == 0 {
      OneMoreDigit("", r, base, upcase);
    } else {
      NumeralDigitsOf(q, base, upcase);
      OneMoreDigit(Numeral(q, base, upcase), r, base, upcase);
    }
  }

  lemma NumeralIs(u: nat, base: nat, upcase: bool)
    requires 2 <= base <= 16
    ensures IsNumeral(Numeral(u, base, upcase), u, base, upcase)
  {
    NumeralReads(u, base, upcase);
    NumeralDigitsOf(u, base, upcase);
  }

  lemma DigitUnique(c: char, d: char, base: nat, upcase: bool)
    requires DigitOf(c, base, upcase) && DigitOf(d, base, upcase) && DigitValue(c) == DigitValue(d)
    ensures c == d
  {
  }

  /** Quotient and rest are determined by the number. */
  lemma SameQuotient(p: nat, c: nat, q: nat, d: nat, base: nat)
    requires c < base && d < base && p * base + c == q * base + d
    ensures p == q && c == d
  {
    if p < q { QuotientBelow(p, c, q, d, base); }
    if q < p { QuotientBelow(q, d, p, c, base); }
  }

  lemma QuotientBelow(p: nat, c: nat, q: nat, d: nat, base: nat)
    requires c < base && p < q
    ensures p * base + c < q * base + d
  {
    assert (p + 1) * base <= q * base;
  }

  lemma {:induction false} LeadingDigit(n: string, u: nat, base: nat, upcase: bool)
    requires base >= 2 && IsNumeral(n, u, base, upcase) && n[0] != '0'
    ensures u > 0
    decreases |n|
  {
    var p, c := n[..|n| - 1], n[|n| - 1];
    if p == "" {
      NonzeroDigit(n[0], base, upcase);
    } else {
      LeadingDigit(p, Value(p, base), base, upcase);
      TimesPositive(Value(p, base), base);
    }
  }

  lemma NonzeroDigit(c: char, base: nat, upcase: bool)
    requires DigitOf(c, base, upcase) && c != '0'
    ensures DigitValue(c) > 0
  {
  }

  lemma TimesPositive(p: nat, base: nat)
    requires p > 0 && base > 0
    ensures p * base > 0
  {
  }

  lemma {:induction false} NumeralUnique(n: string, m: string, u: nat, base: nat, upcase: bool)
    requires base >= 2 && IsNumeral(n, u, base, upcase) && IsNumeral(m, u, base, upcase)
    ensures n == m
    decreases |n|
  {
    var p, c := n[..|n| - 1], n[|n| - 1];
    var q, d := m[..|m| - 1], m[|m| - 1];
    SameQuotient(Value(p, base), DigitValue(c), Value(q, base), DigitValue(d), base);
    DigitUnique(c, d, base, upcase);
    if p != "" { LeadingDigit(p, Value(p, base), base, upcase); }
    if q != "" { LeadingDigit(q, Value(q, base), base, upcase); }
    if p != "" { NumeralUnique(p, q, Value(p, base), base, upcase); }
    assert n == p + [c] && m == q + [d];
  }

  /**
   A number in its field: as wide as asked for or as needed; a numeral at the
   left end, behind its sign, with blanks after it, or at the right end, with
   blanks before its sign, or zeros between sign and numeral.
   */
  ghost predicate NumberField(out: string, n: string, neg: bool, width: nat, left: bool, zero: bool)
  {
    var sign := if neg then 1 else 0;
    var body := sign + |n|;
    && |out| == (if width > body then width else body)
    && if left then
         (neg ==> out[0] == '-') && out[sign..body] == n && forall i :: body <= i < |out| ==> out[i] == ' '
       else if zero then
         (neg ==> out[0] == '-') && out[|out| - |n|..] == n && forall i :: sign <= i < |out| - |n| ==> out[i] == '0'
       else
         (neg ==> out[|out| - body] == '-') && out[|out| - |n|..] == n && forall i :: 0 <= i < |out| - body ==> out[i] == ' '
  }

  /** The text of PrintNum is its number's numeral in such a field. */
  lemma NumTextIs(u: nat, base: nat, neg: bool, width: nat, left: bool, padc: char, upcase: bool)
    requires 2 <= base <= 16 && (padc == ' ' || padc == '0')
    ensures IsNumeral(Numeral(u, base, upcase), u, base, upcase)
    ensures NumberField(NumText(u, base, neg, width, left, padc, upcase), Numeral(u, base, upcase), neg, width, left, padc == '0')
  {
    NumeralIs(u, base, upcase);
    var n := Numeral(u, base, upcase);
    FieldIs(n, neg, width, left, padc);
  }

  lemma FieldIs(n: string, neg: bool, width: nat, left: bool, padc: char)
    requires padc == ' ' || padc == '0'
    ensures NumberField(Field(n, neg, Pad(width, |Sign(neg)| + |n|), left, padc), n, neg, width, left, padc == '0')
  {
  }

  // -------- PrintNum in the buffer --------

  lemma {:induction false} DigitsBound(u: nat, base: nat, upcase: bool, k: nat)
    requires 2 <= base <= 16 && k >= 1 && u < Pow2(k)
    ensures |DigitsUp(u, base, upcase)| <= k
    decreases k
  {
    var q, r := QuotientAndRest(u, base);
    if q == 0 {
    } else {
      HalfAtMost(q, base, r, u);
      assert k > 1 && q < Pow2(k - 1);
      DigitsBound(q, base, upcase, k - 1);
    }
  }

  lemma HalfAtMost(q: nat, base: nat, r: nat, u: nat)
    requires base >= 2 && q * base + r == u
    ensures 2 * q <= u
  {
  }

  lemma ReversedAppend(a: string, b: string)
    ensures Reversed(a + b) == Reversed(b) + Reversed(a)
  {
  }

  /** The buffer before the reversal: digits upwards, then sign and padding as the mode demands. */
  function Raw(digits: string, neg: bool, pad: nat, left: bool, padc: char): string
  {
    if neg && !left && padc == '0' then digits + Repeat(padc, pad) + Sign(neg)
    else digits + Sign(neg) + Repeat(if left then ' ' else padc, pad)
  }

  lemma ReversedThree(a: string, b: string, c: string)
    requires Reversed(b) == b && Reversed(c) == c
    ensures Reversed(a + b + c) == c + b + Reversed(a)
    ensures Reversed(a + b) == b + Reversed(a)
  {
    ReversedAppend(a, b);
    ReversedAppend(a + b, c);
  }

  lemma Symmetric(neg: bool, c: char, n: nat)
    ensures Reversed(Sign(neg)) == Sign(neg) && Reversed(Repeat(c, n)) == Repeat(c, n)
  {
  }

  /** Reversing the number alone, or the whole field, gives the text. */
  lemma RawReversed(digits: string, neg: bool, pad: nat, left: bool, padc: char)
    ensures var raw := Raw(digits, neg, pad, left, padc);
            var actual := |digits| + |Sign(neg)|;
            && |raw| == actual + pad
            && Field(Reversed(digits), neg, pad, left, padc) == if left then Reversed(raw[..actual]) + raw[actual..] else Reversed(raw)
  {
    var sign, c := Sign(neg), if left then ' ' else padc;
    Symmetric(neg, c, pad);
    ReversedThree(digits, sign, Repeat(c, pad));
    ReversedThree(digits, Repeat(c, pad), sign);
    if left {
      var raw := digits + sign + Repeat(c, pad);
      assert raw[..|digits| + |sign|] == digits + sign;
      assert raw[|digits| + |sign|..] == Repeat(c, pad);
    }
  }

  /** What is still to be stored when v is left. */
  function Rest(v: nat, base: nat, upcase: bool, more: bool): string
    requires 2 <= base <= 16
  {
    if more then DigitsUp(v, base, upcase) else ""
  }

  lemma RestStep(v: nat, base: nat, upcase: bool)
    requires 2 <= base <= 16
    ensures Rest(v, base, upcase, true) == [Digit(v % base, upcase)] + Rest(v / base, base, upcase, v / base != 0)
  {
  }

  /** One digit of the do-while loop: what is stored and what is left stay the same text. */
  method PutDigit(buf: array<char>, p: nat, v: nat, base: nat, upcase: bool) returns (q: nat)
    requires p < buf.Length && 2 <= base <= 16
    modifies buf
    ensures q == v / base && (v > 0 ==> q < v)
    ensures buf[..p + 1] + Rest(q, base, upcase, q != 0) == old(buf[..p]) + Rest(v, base, upcase, true)
  {
    var _, _ := QuotientAndRest(v, base);
    RestStep(v, base, upcase);
    ghost var d, rest := Digit(v % base, upcase), Rest(v / base, base, upcase, v / base != 0);
    buf[p] := Digit(v % base, upcase);
    q := v / base;
    assert buf[..p + 1] == old(buf[..p]) + [d];
    Regroup(old(buf[..p]), d, rest);
  }

  lemma Regroup(a: string, d: char, b: string)
    ensures a + [d] + b == a + ([d] + b)
  {
  }

  /** The do-while loop. */
  method PutDigits(buf: array<char>, u: Word, base: nat, upcase: bool) returns (p: nat)
    requires buf.Length >= LP_MAX_BUF && 2 <= base <= 16
    modifies buf
    ensures 1 <= p <= 64 && buf[..p] == DigitsUp(u, base, upcase)
  {
    ghost var all := AtMost64(u, base, upcase);
    p := 0;
    var v: nat, more := u, true;
    while more
      invariant p <= |all| && buf[..p] + Rest(v, base, upcase, more) == all
      decreases more, v
    {
      v := PutDigit(buf, p, v, base, upcase);
      p := p + 1;
      more := v != 0;
    }
  }

  lemma AtMost64(u: Word, base: nat, upcase: bool) returns (all: string)
    requires 2 <= base <= 16
    ensures all == DigitsUp(u, base, upcase) == Rest(u, base, upcase, true) && 1 <= |all| <= 64
  {
    assert Pow2(64) == TWO64 by { Pow2Values(); }
    DigitsBound(u, base, upcase, 64);
    all := DigitsUp(u, base, upcase);
  }

  /** buf[from..to) := c */
  method Fill(buf: array<char>, from: nat, to: nat, c: char)
    requires from <= to <= buf.Length
    modifies buf
    ensures buf[..to] == old(buf[..from]) + Repeat(c, to - from)
  {
    for i := from to to
      invariant forall j :: 0 <= j < to ==> buf[j] == if from <= j < i then c else old(buf[j])
    {
      buf[i] := c;
    }
  }

  /** Sign and padding behind the digits. */
  method PadField(buf: array<char>, p: nat, neg: bool, length: nat, left: bool, padc: char) returns (actual: nat, r: nat)
    requires buf.Length >= LP_MAX_BUF && p <= 64 && length <= LP_MAX_BUF
    modifies buf
    ensures actual == p + |Sign(neg)| <= r <= LP_MAX_BUF
    ensures buf[..r] == Raw(old(buf[..p]), neg, Pad(length, actual), left, padc)
  {
    actual, r := p, length;
    if neg {
      buf[actual] := '-';
      actual := actual + 1;
    }
    if r < actual {
      r := actual;
    }
    var c := if left then ' ' else padc;
    if neg && !left && c == '0' {
      Fill(buf, actual - 1, r - 1, c);
      buf[r - 1] := '-';
      assert buf[..r] == buf[..r - 1] + "-";
    } else {
      assert buf[..actual] == old(buf[..p]) + Sign(neg);
      Fill(buf, actual, r, c);
    }
  }

  /** The reversal of the first n characters in place. */
  method ReversePrefix(buf: array<char>, n: nat)
    requires n <= buf.Length
    modifies buf
    ensures buf[..n] == Reversed(old(buf[..n]))
    ensures forall i :: n <= i < buf.Length ==> buf[i] == old(buf[i])
  {
    var begin, end: int := 0, n - 1;
    while end > begin
      invariant 0 <= begin <= end + 2 && begin + end == n - 1
      invariant forall i :: 0 <= i < begin ==> buf[i] == old(buf[n - 1 - i])
      invariant forall i :: end < i < n ==> buf[i] == old(buf[n - 1 - i])
      invariant forall i :: begin <= i <= end ==> buf[i] == old(buf[i])
      invariant forall i :: n <= i < buf.Length ==> buf[i] == old(buf[i])
    {
      buf[begin], buf[end] := buf[end], buf[begin];
      begin := begin + 1;
      end := end - 1;
    }
  }

  /** PrintNum */
  method PrintNum(buf: array<char>, u: Word, base: nat, neg: bool, length: nat, left: bool, padc: char, upcase: bool) returns (r: nat)
    requires buf.Length >= LP_MAX_BUF && 2 <= base <= 16 && length <= LP_MAX_BUF
    modifies buf
    ensures r <= LP_MAX_BUF && buf[..r] == NumText(u, base, neg, length, left, padc, upcase)
  {
    var p := PutDigits(buf, u, base, upcase);
    var actual;
    actual, r := PadField(buf, p, neg, length, left, padc);
    ghost var digits := DigitsUp(u, base, upcase);
    RawReversed(digits, neg, Pad(length, actual), left, padc);
    ReverseField(buf, actual, r, left);
  }

  /** The number alone is reversed in a left-adjusted field, the whole field otherwise. */
  method ReverseField(buf: array<char>, actual: nat, r: nat, left: bool)
    requires actual <= r <= buf.Length
    modifies buf
    ensures buf[..r] == if left then Reversed(old(buf[..r])[..actual]) + old(buf[..r])[actual..] else Reversed(old(buf[..r]))
  {
    ghost var raw := buf[..r];
    assert raw[..actual] == buf[..actual];
    if left {
      ReversePrefix(buf, actual);
      assert buf[..r] == buf[..actual] + raw[actual..];
    } else {
      ReversePrefix(buf, r);
    }
  }
}
