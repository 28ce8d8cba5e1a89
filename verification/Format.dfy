/**
 lp_Print of lib/print.c with PrintChar and PrintString: the format loop, which
 reads a string up to its terminating NUL, against a pure rendering.
 */
module Format {
  import opened Bits
  import opened Print

  const NUL: char := 0 as char

  // -------- PrintChar and PrintString --------

  function CharText(c: char, width: nat, left: bool): string
  {
    if left then [c] + Repeat(' ', Pad(width, 1)) else Repeat(' ', Pad(width, 1)) + [c]
  }

  function StringText(s: string, width: nat, left: bool): string
  {
    if left then s + Repeat(' ', Pad(width, |s|)) else Repeat(' ', Pad(width, |s|)) + s
  }

  /** PrintChar */
  method PrintChar(buf: array<char>, c: char, length: nat, left: bool) returns (r: nat)
    requires buf.Length >= LP_MAX_BUF && length <= LP_MAX_BUF
    modifies buf
    ensures r <= LP_MAX_BUF && buf[..r] == CharText(c, length, left)
  {
    r := if length < 1 then 1 else length;
    if left {
      buf[0] := c;
      Fill(buf, 1, r, ' ');
    } else {
      Fill(buf, 0, r - 1, ' ');
      buf[r - 1] := c;
      assert buf[..r] == buf[..r - 1] + [c];
    }
  }

  /** Characters of a NUL-terminated string; the terminator is the last one that may be read. */
  function CharAt(s: string, i: nat): char
    requires i <= |s|
  {
    if i < |s| then s[i] else NUL
  }

  /** A C string: nothing before the terminator is NUL. */
  predicate CString(s: string) { NUL !in s }

  /** PrintString */
  method PrintString(buf: array<char>, s: string, length: nat, left: bool) returns (r: nat)
    requires buf.Length >= LP_MAX_BUF && length <= LP_MAX_BUF && |s| <= LP_MAX_BUF && CString(s)
    modifies buf
    ensures r <= LP_MAX_BUF && buf[..r] == StringText(s, length, left)
  {
    var len := 0;
    while CharAt(s, len) != NUL
      invariant len <= |s|
      decreases |s| - len
    {
      len := len + 1;
    }
    r := if length < len then len else length;
    if left {
      CopyString(buf, s, 0);
      Fill(buf, len, r, ' ');
    } else {
      Fill(buf, 0, r - len, ' ');
      CopyString(buf, s, r - len);
    }
  }

  method CopyString(buf: array<char>, s: string, at: nat)
    requires at + |s| <= buf.Length
    modifies buf
    ensures buf[..at + |s|] == old(buf[..at]) + s
  {
    for i := 0 to |s|
      invariant forall j :: 0 <= j < at ==> buf[j] == old(buf[j])
      invariant forall j :: 0 <= j < i ==> buf[at + j] == s[j]
    {
      buf[at + i] := s[i];
    }
  }

  // -------- the pure rendering --------

  predicate IsDigit(c: char) { '0' <= c <= '9' }

  /** Whether s starts with c, and what follows. */
  function SkipChar(s: string, c: char): (r: (bool, string))
    ensures |r.1| <= |s|
  {
    if s != "" && s[0] == c then (true, s[1..]) else (false, s)
  }

  /** The digits s starts with, and what follows. */
  function SkipDigits(s: string): (r: (string, string))
    ensures |r.1| <= |s|
  {
    if s != "" && IsDigit(s[0]) then var (n, rest) := SkipDigits(s[1..]); ([s[0]] + n, rest) else ("", s)
  }

  /** The text before the first '%', and what follows. */
  function SkipLiteral(s: string): (r: (string, string))
    ensures |r.1| <= |s| && (r.1 != "" ==> r.1[0] == '%')
  {
    if s != "" && s[0] != '%' then var (n, rest) := SkipLiteral(s[1..]); ([s[0]] + n, rest) else ("", s)
  }

  datatype Directive = Directive(long: bool, left: bool, padc: char, width: nat)

  /** What comes after a '%': [l][-][0][width][.[precision]], then the conversion character. The precision is ignored. */
  function ParseDirective(s: string): (r: (Directive, string))
    ensures |r.1| <= |s|
  {
    var (long, s1) := SkipChar(s, 'l');
    var (left, s2) := SkipChar(s1, '-');
    var (zero, s3) := SkipChar(s2, '0');
    var (width, s4) := SkipDigits(s3);
    var (dot, s5) := SkipChar(s4, '.');
    (Directive(long, left, if zero then '0' else ' ', Value(width, 10)), if dot then SkipDigits(s5).1 else s5)
  }

  // -------- arguments --------

  datatype Arg = Number(w: Word) | Chars(s: string)

  /** va_arg of a long or an int: an int is the low half, sign-extended. */
  function NumArg(args: seq<Arg>, k: nat, long: bool): Word
  {
    var w: Word := if k < |args| && args[k].Number? then args[k].w else 0;
    var low := w % 0x1_0000_0000;
    if long then w else if low < 0x8000_0000 then low else low + (TWO64 - 0x1_0000_0000)
  }

  function StrArg(args: seq<Arg>, k: nat): string
  {
    if k < |args| && args[k].Chars? then args[k].s else ""
  }

  predicate Negative(w: Word) { w >= 0x8000_0000_0000_0000 }

  /** The text of one directive, and whether it took an argument. */
  function Piece(c: char, d: Directive, args: seq<Arg>, k: nat): (string, bool)
  {
    var w := NumArg(args, k, d.long);
    if c == 'b' then (NumText(w, 2, false, d.width, d.left, d.padc, false), true)
    else if c == 'd' || c == 'i' || c == 'D' then
      (NumText(if Negative(w) then TWO64 - w else w, 10, Negative(w), d.width, d.left, d.padc, false), true)
    else if c == 'o' || c == 'O' then (NumText(w, 8, false, d.width, d.left, d.padc, false), true)
    else if c == 'u' || c == 'U' then (NumText(w, 10, false, d.width, d.left, d.padc, false), true)
    else if c == 'x' then (NumText(w, 16, false, d.width, d.left, d.padc, false), true)
    else if c == 'X' then (NumText(w, 16, false, d.width, d.left, d.padc, true), true)
    else if c == 'c' then (CharText((NumArg(args, k, false) % 256) as char, d.width, d.left), true)
    else if c == 's' then (StringText(StrArg(args, k), d.width, d.left), true)
    else ([c], false)
  }

  /** `stuck` is the endless loop after the fatal message. */
  datatype Output = Output(text: string, stuck: bool)

  const FATAL: string := "fatal error in lp_Print!"

  /** The text output so far, followed by the rendering of what is left. */
  function Then(out: string, rest: Output): Output { Output(out + rest.text, rest.stuck) }

  /** The rendering of a format string: literals and directives in turn, then the terminating NUL. */
  function Render(s: string, args: seq<Arg>, k: nat): Output
    decreases |s|
  {
    var (literal, s1) := SkipLiteral(s);
    if |literal| > LP_MAX_BUF then Output(FATAL, true)
    else if s1 == "" then Output(literal + [NUL], false)
    else
      var (d, s2) := ParseDirective(s1[1..]);
      if s2 == "" then Output(literal + [NUL], false)
      else
        var (piece, took) := Piece(s2[0], d, args, k);
        Then(literal + piece, Render(s2[1..], args, if took then k + 1 else k))
  }

  /** No stretch of text outside the directives is longer than the buffer. */
  predicate LiteralsFit(s: string)
    decreases |s|
  {
    var (literal, s1) := SkipLiteral(s);
    |literal| <= LP_MAX_BUF
    && (s1 == "" || (var s2 := ParseDirective(s1[1..]).1; s2 == "" || LiteralsFit(s2[1..])))
  }

  /** Field widths and string arguments stay within the buffer. */
  predicate Fits(s: string, args: seq<Arg>, k: nat)
    decreases |s|
  {
    var s1 := SkipLiteral(s).1;
    s1 == "" ||
    var (d, s2) := ParseDirective(s1[1..]);
    s2 == "" ||
    (&& d.width <= LP_MAX_BUF
     && (s2[0] == 's' ==> |StrArg(args, k)| <= LP_MAX_BUF && CString(StrArg(args, k)))
     && Fits(s2[1..], args, if Piece(s2[0], d, args, k).1 then k + 1 else k))
  }

  /** The endless loop after the fatal message is entered exactly when some literal text is too long, whatever the arguments. */
  lemma {:induction false} StuckIff(s: string, args: seq<Arg>, k: nat)
    ensures Render(s, args, k).stuck <==> !LiteralsFit(s)
    decreases |s|
  {
    var (literal, s1) := SkipLiteral(s);
    if |literal| > LP_MAX_BUF || s1 == "" || ParseDirective(s1[1..]).1 == "" {
    } else {
      var (d, s2) := ParseDirective(s1[1..]);
      StuckIff(s2[1..], args, if Piece(s2[0], d, args, k).1 then k + 1 else k);
    }
  }

  /** A format string on which lp_Print never returns: 1001 characters without a directive. */
  lemma LongLiteralSticks(args: seq<Arg>) returns (fmt: string)
    ensures |fmt| == LP_MAX_BUF + 1 && CString(fmt) && Fits(fmt, args, 0) && Render(fmt, args, 0) == Output(FATAL, true)
  {
    fmt := Repeat('a', LP_MAX_BUF + 1);
    LiteralSkipped(fmt, "");
    assert fmt + "" == fmt;
  }

  // -------- lp_Print --------

  lemma {:induction false} LiteralSkipped(s: string, rest: string)
    requires '%' !in s && (rest != "" ==> rest[0] == '%')
    ensures SkipLiteral(s + rest) == (s, rest)
  {
    if s != "" {
      assert (s + rest)[1..] == s[1..] + rest;
      LiteralSkipped(s[1..], rest);
      assert [s[0]] + s[1..] == s;
    } else {
      assert s + rest == rest;
    }
  }

  lemma {:induction false} DigitsSkipped(n: string, rest: string)
    requires (forall j :: 0 <= j < |n| ==> IsDigit(n[j])) && (rest != "" ==> !IsDigit(rest[0]))
    ensures SkipDigits(n + rest) == (n, rest)
  {
    if n != "" {
      assert (n + rest)[1..] == n[1..] + rest;
      DigitsSkipped(n[1..], rest);
      assert [n[0]] + n[1..] == n;
    } else {
      assert n + rest == rest;
    }
  }

  lemma LiteralEnds(fmt: string, i: nat, j: nat)
    requires i <= j <= |fmt| && (forall q :: i <= q < j ==> fmt[q] != '%') && (j < |fmt| ==> fmt[j] == '%')
    ensures SkipLiteral(fmt[i..]) == (fmt[i..j], fmt[j..])
  {
    LiteralSkipped(fmt[i..j], fmt[j..]);
    assert fmt[i..j] + fmt[j..] == fmt[i..];
  }

  lemma DigitsEnd(fmt: string, i: nat, j: nat)
    requires i <= j <= |fmt| && (forall q :: i <= q < j ==> IsDigit(fmt[q])) && (j < |fmt| ==> !IsDigit(fmt[j]))
    ensures SkipDigits(fmt[i..]) == (fmt[i..j], fmt[j..])
  {
    DigitsSkipped(fmt[i..j], fmt[j..]);
    assert fmt[i..j] + fmt[j..] == fmt[i..];
  }

  /** How the rendering goes on after a directive. */
  lemma RenderStep(s: string, literal: string, s1: string, d: Directive, s2: string, args: seq<Arg>, k: nat)
    requires SkipLiteral(s) == (literal, s1) && |literal| <= LP_MAX_BUF && s1 != ""
    requires ParseDirective(s1[1..]) == (d, s2) && s2 != "" && Fits(s, args, k)
    ensures d.width <= LP_MAX_BUF && (s2[0] == 's' ==> |StrArg(args, k)| <= LP_MAX_BUF && CString(StrArg(args, k)))
    ensures var (piece, took) := Piece(s2[0], d, args, k);
            var k' := if took then k + 1 else k;
            Fits(s2[1..], args, k') && Render(s, args, k) == Then(literal + piece, Render(s2[1..], args, k'))
  {
  }

  /** The same at positions of the format string: a literal from i to j, a directive from j to its conversion character at `at`. */
  lemma DirectiveAt(fmt: string, i: nat, j: nat, at: nat, d: Directive, args: seq<Arg>, k: nat)
      returns (piece: string, took: bool, k': nat)
    requires i <= j < at < |fmt| && SkipLiteral(fmt[i..]) == (fmt[i..j], fmt[j..]) && j - i <= LP_MAX_BUF
    requires ParseDirective(fmt[j + 1..]) == (d, fmt[at..]) && Fits(fmt[i..], args, k)
    ensures d.width <= LP_MAX_BUF && (fmt[at] == 's' ==> |StrArg(args, k)| <= LP_MAX_BUF && CString(StrArg(args, k)))
    ensures (piece, took) == Piece(fmt[at], d, args, k) && k' == if took then k + 1 else k
    ensures Fits(fmt[at + 1..], args, k') && Render(fmt[i..], args, k) == Then(fmt[i..j] + piece, Render(fmt[at + 1..], args, k'))
  {
    TailOf(fmt, j);
    TailOf(fmt, at);
    RenderStep(fmt[i..], fmt[i..j], fmt[j..], d, fmt[at..], args, k);
    piece, took := Piece(fmt[at], d, args, k).0, Piece(fmt[at], d, args, k).1;
    k' := if took then k + 1 else k;
  }

  /** A directive cut short by the end of the string ends the rendering. */
  lemma RenderCut(s: string, literal: string, s1: string, args: seq<Arg>, k: nat)
    requires SkipLiteral(s) == (literal, s1) && |literal| <= LP_MAX_BUF && s1 != "" && ParseDirective(s1[1..]).1 == ""
    ensures Render(s, args, k) == Output(literal + [NUL], false)
  {
  }

  /** The scan for the next '%'. */
  method ScanLiteral(fmt: string, i: nat) returns (j: nat)
    requires i <= |fmt| && CString(fmt)
    ensures i <= j <= |fmt| && SkipLiteral(fmt[i..]) == (fmt[i..j], fmt[j..])
  {
    j := i;
    while CharAt(fmt, j) != NUL && CharAt(fmt, j) != '%'
      invariant i <= j <= |fmt| && forall q :: i <= q < j ==> fmt[q] != '%'
      decreases |fmt| - j
    {
      j := j + 1;
    }
    LiteralEnds(fmt, i, j);
  }

  /** `while (IsDigit(*fmt)) n = 10 * n + Ctod(*fmt++)` */
  method ScanDigits(fmt: string, i: nat) returns (n: nat, j: nat)
    requires i <= |fmt|
    ensures i <= j <= |fmt| && SkipDigits(fmt[i..]) == (fmt[i..j], fmt[j..]) && n == Value(fmt[i..j], 10)
  {
    n, j := 0, i;
    while IsDigit(CharAt(fmt, j))
      invariant i <= j <= |fmt| && (forall q :: i <= q < j ==> IsDigit(fmt[q])) && n == Value(fmt[i..j], 10)
      decreases |fmt| - j
    {
      ValueSnoc(fmt[i..j], fmt[j], 10);
      assert fmt[i..j + 1] == fmt[i..j] + [fmt[j]];
      n := 10 * n + DigitValue(CharAt(fmt, j));
      j := j + 1;
    }
    DigitsEnd(fmt, i, j);
  }

  /** `if (*fmt == c) fmt++` */
  method TakeIf(fmt: string, i: nat, c: char) returns (taken: bool, j: nat)
    requires i <= |fmt| && c != NUL
    ensures i <= j <= |fmt| && (taken, fmt[j..]) == SkipChar(fmt[i..], c)
  {
    taken, j := false, i;
    if CharAt(fmt, j) == c {
      taken := true;
      j := j + 1;
    }
  }

  /** The prefixes after a '%'. */
  method ScanDirective(fmt: string, i: nat) returns (d: Directive, j: nat)
    requires i <= |fmt|
    ensures i <= j <= |fmt| && (d, fmt[j..]) == ParseDirective(fmt[i..])
  {
    var long, i1 := TakeIf(fmt, i, 'l');
    var left, i2 := TakeIf(fmt, i1, '-');
    var zero, i3 := TakeIf(fmt, i2, '0');
    var width, i4 := ScanDigits(fmt, i3);
    var dot, i5 := TakeIf(fmt, i4, '.');
    j := i5;
    if dot {
      var _, after := ScanDigits(fmt, i5);
      j := after;
    }
    d := Directive(long, left, if zero then '0' else ' ', width);
  }

  /** The switch on the conversion character; the piece is what OUTPUT is given. */
  method Convert(buf: array<char>, c: char, d: Directive, args: seq<Arg>, k: nat) returns (piece: string, took: bool)
    requires buf.Length >= LP_MAX_BUF && d.width <= LP_MAX_BUF
    requires c == 's' ==> |StrArg(args, k)| <= LP_MAX_BUF && CString(StrArg(args, k))
    modifies buf
    ensures (piece, took) == Piece(c, d, args, k) && |piece| <= LP_MAX_BUF
  {
    var num, length := NumArg(args, k, d.long), 0;
    took := true;
    if c == 'b' {
      length := PrintNum(buf, num, 2, false, d.width, d.left, d.padc, false);
    } else if c == 'd' || c == 'i' || c == 'D' {
      var neg := Negative(num);
      if neg {
        num := TWO64 - num;
      }
      length := PrintNum(buf, num, 10, neg, d.width, d.left, d.padc, false);
    } else if c == 'o' || c == 'O' {
      length := PrintNum(buf, num, 8, false, d.width, d.left, d.padc, false);
    } else if c == 'u' || c == 'U' {
      length := PrintNum(buf, num, 10, false, d.width, d.left, d.padc, false);
    } else if c == 'x' {
      length := PrintNum(buf, num, 16, false, d.width, d.left, d.padc, false);
    } else if c == 'X' {
      length := PrintNum(buf, num, 16, false, d.width, d.left, d.padc, true);
    } else if c == 'c' {
      length := PrintChar(buf, (NumArg(args, k, false) % 256) as char, d.width, d.left);
    } else if c == 's' {
      length := PrintString(buf, StrArg(args, k), d.width, d.left);
    } else {
      return [c], false;
    }
    piece := buf[..length];
  }

  lemma ThenThen(a: string, b: string, rest: Output)
    ensures Then(a, Then(b, rest)) == Then(a + b, rest)
  {
  }

  lemma TailOf(fmt: string, j: nat)
    requires j < |fmt|
    ensures fmt[j..] != "" && fmt[j..][0] == fmt[j] && fmt[j..][1..] == fmt[j + 1..]
  {
  }

  /** One round of the format loop: either it ends here, or the rendering goes on from `next`. */
  method Round(buf: array<char>, fmt: string, i: nat, args: seq<Arg>, k: nat) returns (text: string, ended: bool, stuck: bool, next: nat, k': nat)
    requires buf.Length >= LP_MAX_BUF && CString(fmt) && i <= |fmt| && Fits(fmt[i..], args, k)
    modifies buf
    ensures ended ==> Render(fmt[i..], args, k) == Output(text, stuck)
    ensures !ended ==> i < next <= |fmt| && Fits(fmt[next..], args, k') && Render(fmt[i..], args, k) == Then(text, Render(fmt[next..], args, k'))
  {
    next, k' := i, k;
    var j := ScanLiteral(fmt, i);
    text := fmt[i..j];
    if j - i > LP_MAX_BUF {
      return FATAL, true, true, i, k;
    }
    if CharAt(fmt, j) == NUL {
      return text + [NUL], true, false, i, k;
    }
    var piece;
    piece, ended, next, k' := OneDirective(buf, fmt, i, j, args, k);
    text, stuck := text + piece, false;
  }

  /** A round from the '%' at position j. */
  method OneDirective(buf: array<char>, fmt: string, ghost i: nat, j: nat, args: seq<Arg>, k: nat) returns (piece: string, ended: bool, next: nat, k': nat)
    requires buf.Length >= LP_MAX_BUF && CString(fmt) && i <= j < |fmt| && Fits(fmt[i..], args, k)
    requires SkipLiteral(fmt[i..]) == (fmt[i..j], fmt[j..]) && j - i <= LP_MAX_BUF
    modifies buf
    ensures ended ==> Render(fmt[i..], args, k) == Output(fmt[i..j] + piece, false)
    ensures !ended ==> j < next <= |fmt| && Fits(fmt[next..], args, k')
                       && Render(fmt[i..], args, k) == Then(fmt[i..j] + piece, Render(fmt[next..], args, k'))
  {
    TailOf(fmt, j);
    var d, at := ScanDirective(fmt, j + 1);
    if CharAt(fmt, at) == NUL {
      RenderCut(fmt[i..], fmt[i..j], fmt[j..], args, k);
      return [NUL], true, at, k;
    }
    ghost var text, takes, k1 := DirectiveAt(fmt, i, j, at, d, args, k);
    var took;
    piece, took := Convert(buf, CharAt(fmt, at), d, args, k);
    ended, next, k' := false, at + 1, if took then k + 1 else k;
  }

  /**
   lp_Print: it outputs the rendering without reading past the terminator, and
   comes to its end if and only if no literal text is longer than the buffer.
   `stuck` is the endless loop of OUTPUT after the fatal message.
   */
  method LpPrint(fmt: string, args: seq<Arg>) returns (out: string, stuck: bool)
    requires CString(fmt) && Fits(fmt, args, 0)
    ensures Output(out, stuck) == Render(fmt, args, 0)
    ensures stuck <==> !LiteralsFit(fmt)
  {
    StuckIff(fmt, args, 0);
    var buf := new char[LP_MAX_BUF](_ => ' ');
    out, stuck := "", false;
    var i, k := 0, 0;
    assert fmt[0..] == fmt;
    while true
      invariant i <= |fmt| && Fits(fmt[i..], args, k)
      invariant Render(fmt, args, 0) == Then(out, Render(fmt[i..], args, k))
      decreases |fmt| - i
    {
      var text, ended, next, k';
      text, ended, stuck, next, k' := Round(buf, fmt, i, args, k);
      if ended {
        return out + text, stuck;
      }
      ThenThen(out, text, Render(fmt[next..], args, k'));
      out, i, k := out + text, next, k';
    }
  }

  // -------- what the rendering means --------

  /** A directive as it is written; the precision, if any, is a point and some digits. */
  datatype Written = Written(long: bool, left: bool, zero: bool, width: nat, dot: bool, precision: string, conv: char) {
    /** The conversion character is not taken for one of the prefixes. */
    predicate Ok()
    {
      && conv != NUL && conv != 'l' && conv != '-' && conv != '.' && !IsDigit(conv)
      && forall i :: 0 <= i < |precision| ==> IsDigit(precision[i])
    }

    /** The directive's text after the '%', followed by rest. */
    function Show(rest: string): string
    {
      (if long then "l" else "") + ((if left then "-" else "") + ((if zero then "0" else "") + (WidthText(width) + Tail(rest))))
    }

    /** The precision, the conversion character and the rest. */
    function Tail(rest: string): string
    {
      if dot then "." + (precision + ([conv] + rest)) else [conv] + rest
    }

    function Meaning(): Directive { Directive(long, left, if zero then '0' else ' ', width) }
  }

  /** No width, or a decimal one without leading zeros. */
  function WidthText(width: nat): string { if width > 0 then Numeral(width, 10, false) else "" }

  lemma {:induction false} NumeralDigits(u: nat)
    ensures forall i :: 0 <= i < |Numeral(u, 10, false)| ==> IsDigit(Numeral(u, 10, false)[i])
    ensures u > 0 ==> Numeral(u, 10, false)[0] != '0'
    decreases u
  {
    var q, r := QuotientAndRest(u, 10);
    NumeralStep(u, 10, false);
    if q == 0 {
    } else {
      NumeralDigits(q);
    }
  }

  lemma WidthReads(width: nat)
    ensures var n := WidthText(width);
            && Value(n, 10) == width
            && (forall j :: 0 <= j < |n| ==> IsDigit(n[j]))
            && (|n| > 0 ==> n[0] != '0')
  {
    NumeralDigits(width);
    NumeralReads(width, 10, false);
  }

  lemma CharSkipped(present: bool, c: char, rest: string)
    requires rest != "" && rest[0] != c
    ensures SkipChar((if present then [c] else "") + rest, c) == (present, rest)
  {
    if present { assert ([c] + rest)[1..] == rest; } else { assert "" + rest == rest; }
  }

  /** Parsing undoes writing, whatever follows the directive. */
  lemma ParseWritten(w: Written, rest: string)
    requires w.Ok()
    ensures ParseDirective(w.Show(rest)) == (w.Meaning(), [w.conv] + rest)
  {
    var n := WidthText(w.width);
    var t4 := w.Tail(rest);
    var t3 := n + t4;
    var t2 := (if w.zero then "0" else "") + t3;
    var t1 := (if w.left then "-" else "") + t2;
    WidthReads(w.width);
    assert t4[0] == if w.dot then '.' else w.conv;
    assert t3[0] == if n != "" then n[0] else t4[0];
    assert t2[0] == if w.zero then '0' else t3[0];
    assert t1[0] == if w.left then '-' else t2[0];
    CharSkipped(w.long, 'l', t1);
    CharSkipped(w.left, '-', t2);
    CharSkipped(w.zero, '0', t3);
    DigitsSkipped(n, t4);
    TailParsed(w, rest);
  }

  /** The precision is skipped. */
  lemma TailParsed(w: Written, rest: string)
    requires w.Ok()
    ensures var (dot, s5) := SkipChar(w.Tail(rest), '.');
            (if dot then SkipDigits(s5).1 else s5) == [w.conv] + rest
  {
    var t5 := [w.conv] + rest;
    if w.dot {
      assert w.Tail(rest)[1..] == w.precision + t5;
      DigitsSkipped(w.precision, t5);
    } else {
      CharSkipped(false, '.', t5);
      assert "" + t5 == t5;
    }
  }

  predicate Literal(s: string) { '%' !in s && CString(s) && |s| <= LP_MAX_BUF }

  /** Text without '%' is output as it is. */
  lemma RenderLiteral(s: string, args: seq<Arg>, k: nat)
    requires Literal(s)
    ensures Render(s, args, k) == Output(s + [NUL], false)
  {
    LiteralSkipped(s, "");
    assert s + "" == s;
  }

  /**
   A literal, a written directive and the rest: the output is the literal, the
   argument in the directive's form, and the rendering of the rest on its own.
   */
  lemma RenderConcat(s: string, w: Written, rest: string, args: seq<Arg>, k: nat)
    requires Literal(s) && w.Ok()
    ensures var (piece, took) := Piece(w.conv, w.Meaning(), args, k);
            Render(s + ("%" + w.Show(rest)), args, k) == Then(s + piece, Render(rest, args, if took then k + 1 else k))
  {
    var tail := "%" + w.Show(rest);
    LiteralSkipped(s, tail);
    assert tail[1..] == w.Show(rest);
    ParseWritten(w, rest);
    assert ([w.conv] + rest)[1..] == rest;
  }

  // -------- what each conversion prints --------

  /** The number a conversion takes, as a signed one: all 64 bits with 'l', else the low 32; 0 when there is none. */
  function SignedArg(args: seq<Arg>, k: nat, long: bool): int
  {
    if k >= |args| || !args[k].Number? then 0
    else if long then
      if args[k].w < 0x8000_0000_0000_0000 then args[k].w else args[k].w - TWO64
    else
      if args[k].w % 0x1_0000_0000 < 0x8000_0000 then args[k].w % 0x1_0000_0000 else args[k].w % 0x1_0000_0000 - 0x1_0000_0000
  }

  /** The argument word is that number in two's complement. */
  lemma ArgIs(args: seq<Arg>, k: nat, long: bool)
    ensures var v := SignedArg(args, k, long);
            var w := NumArg(args, k, long);
            && w == v % TWO64 && (Negative(w) <==> v < 0) && (v < 0 ==> TWO64 - w == -v) && (v >= 0 ==> w == v)
  {
    var v := SignedArg(args, k, long);
    if v < 0 { assert NumArg(args, k, long) == v + TWO64; }
  }

  /** The piece shows the number u in this base and case, in the field the directive asks for. */
  ghost predicate Shows(piece: string, neg: bool, u: nat, base: nat, upcase: bool, w: Written)
  {
    exists n :: IsNumeral(n, u, base, upcase) && NumberField(piece, n, neg, w.width, w.left, w.zero)
  }

  lemma NumTextShows(u: nat, base: nat, neg: bool, upcase: bool, w: Written)
    requires 2 <= base <= 16
    ensures Shows(NumText(u, base, neg, w.width, w.left, if w.zero then '0' else ' ', upcase), neg, u, base, upcase, w)
  {
    NumTextIs(u, base, neg, w.width, w.left, if w.zero then '0' else ' ', upcase);
  }

  /** Base and case of a conversion that shows its argument without sign. */
  predicate Unsigned(c: char, base: nat, upcase: bool)
  {
    || (c == 'b' && base == 2 && !upcase) || ((c == 'o' || c == 'O') && base == 8 && !upcase)
    || ((c == 'u' || c == 'U') && base == 10 && !upcase)
    || (c == 'x' && base == 16 && !upcase) || (c == 'X' && base == 16 && upcase)
  }

  predicate Signed(c: char) { c == 'd' || c == 'i' || c == 'D' }

  // The pieces, one kind of conversion at a time.

  lemma UnsignedIs(c: char, d: Directive, args: seq<Arg>, k: nat, base: nat, upcase: bool)
    requires Unsigned(c, base, upcase)
    ensures Piece(c, d, args, k) == (NumText(NumArg(args, k, d.long), base, false, d.width, d.left, d.padc, upcase), true)
  {
  }

  lemma SignedIs(c: char, d: Directive, args: seq<Arg>, k: nat, a: Word)
    requires Signed(c) && a == NumArg(args, k, d.long)
    ensures Piece(c, d, args, k) == (NumText(if Negative(a) then TWO64 - a else a, 10, Negative(a), d.width, d.left, d.padc, false), true)
  {
  }

  lemma CharIs(d: Directive, args: seq<Arg>, k: nat, c: char)
    requires c == (NumArg(args, k, false) % 256) as char
    ensures Piece('c', d, args, k) == (CharText(c, d.width, d.left), true)
  {
  }

  lemma StringIs(d: Directive, args: seq<Arg>, k: nat)
    ensures Piece('s', d, args, k) == (StringText(StrArg(args, k), d.width, d.left), true)
  {
  }

  lemma UnsignedPiece(w: Written, args: seq<Arg>, k: nat, base: nat, upcase: bool) returns (piece: string, u: nat)
    requires Unsigned(w.conv, base, upcase)
    ensures Piece(w.conv, w.Meaning(), args, k) == (piece, true)
    ensures u == NumArg(args, k, w.long) && Shows(piece, false, u, base, upcase, w)
  {
    u := NumArg(args, k, w.long);
    UnsignedIs(w.conv, w.Meaning(), args, k, base, upcase);
    piece := ShownAs(u, base, false, upcase, w);
  }

  lemma ShownAs(u: nat, base: nat, neg: bool, upcase: bool, w: Written) returns (piece: string)
    requires 2 <= base <= 16
    ensures piece == NumText(u, base, neg, w.width, w.left, if w.zero then '0' else ' ', upcase)
    ensures Shows(piece, neg, u, base, upcase, w)
  {
    piece := NumText(u, base, neg, w.width, w.left, if w.zero then '0' else ' ', upcase);
    NumTextShows(u, base, neg, upcase, w);
  }

  lemma SignedPiece(w: Written, args: seq<Arg>, k: nat) returns (piece: string, a: Word)
    requires Signed(w.conv)
    ensures Piece(w.conv, w.Meaning(), args, k) == (piece, true)
    ensures a == NumArg(args, k, w.long) && Shows(piece, Negative(a), if Negative(a) then TWO64 - a else a, 10, false, w)
  {
    a := NumArg(args, k, w.long);
    SignedIs(w.conv, w.Meaning(), args, k, a);
    piece := ShownAs(if Negative(a) then TWO64 - a else a, 10, Negative(a), false, w);
  }

  /** The rendering goes on behind a directive whose piece is known. */
  lemma RenderWith(s: string, w: Written, rest: string, args: seq<Arg>, k: nat, piece: string, took: bool)
    requires Literal(s) && w.Ok() && Piece(w.conv, w.Meaning(), args, k) == (piece, took)
    ensures Render(s + ("%" + w.Show(rest)), args, k) == Then(s + piece, Render(rest, args, if took then k + 1 else k))
  {
    RenderConcat(s, w, rest, args, k);
  }

  /** d, i and D show their argument in base 10 with its sign; the rest goes on with the next argument. */
  lemma RenderSigned(s: string, w: Written, rest: string, args: seq<Arg>, k: nat) returns (piece: string)
    requires Literal(s) && w.Ok() && Signed(w.conv)
    ensures Render(s + ("%" + w.Show(rest)), args, k) == Then(s + piece, Render(rest, args, k + 1))
    ensures var v := SignedArg(args, k, w.long); Shows(piece, v < 0, if v < 0 then -v else v, 10, false, w)
  {
    var a;
    piece, a := SignedPiece(w, args, k);
    RenderWith(s, w, rest, args, k, piece, true);
    ArgIs(args, k, w.long);
  }

  /** b, o and O, u and U, x and X show its 64 bits without sign, in base 2, 8, 10 and 16, with capitals for X only. */
  lemma RenderUnsigned(s: string, w: Written, rest: string, args: seq<Arg>, k: nat, base: nat, upcase: bool) returns (piece: string)
    requires Literal(s) && w.Ok() && Unsigned(w.conv, base, upcase)
    ensures Render(s + ("%" + w.Show(rest)), args, k) == Then(s + piece, Render(rest, args, k + 1))
    ensures Shows(piece, false, SignedArg(args, k, w.long) % TWO64, base, upcase, w)
  {
    var u;
    piece, u := UnsignedPiece(w, args, k, base, upcase);
    RenderWith(s, w, rest, args, k, piece, true);
    ArgIs(args, k, w.long);
  }

  /** A text in a field of blanks: at the left end with '-', at the right end without. */
  ghost predicate TextField(piece: string, text: string, width: nat, left: bool)
  {
    && |piece| == (if width > |text| then width else |text|)
    && if left then piece[..|text|] == text && forall i :: |text| <= i < |piece| ==> piece[i] == ' '
       else piece[|piece| - |text|..] == text && forall i :: 0 <= i < |piece| - |text| ==> piece[i] == ' '
  }

  lemma StringTextIs(s: string, width: nat, left: bool)
    ensures TextField(StringText(s, width, left), s, width, left)
  {
  }

  lemma CharTextIs(c: char, width: nat, left: bool)
    ensures TextField(CharText(c, width, left), [c], width, left)
  {
  }

  /** A character directive prints the low byte of an int in a field of blanks. */
  lemma RenderChar(s: string, w: Written, rest: string, args: seq<Arg>, k: nat) returns (piece: string)
    requires Literal(s) && w.Ok() && w.conv == 'c'
    ensures Render(s + ("%" + w.Show(rest)), args, k) == Then(s + piece, Render(rest, args, k + 1))
    ensures TextField(piece, [(SignedArg(args, k, false) % 256) as char], w.width, w.left)
  {
    var c := ByteOf(args, k);
    piece := CharText(c, w.width, w.left);
    CharTextIs(c, w.width, w.left);
    CharIs(w.Meaning(), args, k, c);
    RenderWith(s, w, rest, args, k, piece, true);
  }

  lemma ByteOf(args: seq<Arg>, k: nat) returns (c: char)
    ensures c == (NumArg(args, k, false) % 256) as char == (SignedArg(args, k, false) % 256) as char
  {
    ArgIs(args, k, false);
    LowByte(SignedArg(args, k, false));
    c := (NumArg(args, k, false) % 256) as char;
  }

  lemma LowByte(v: int)
    ensures v % TWO64 % 256 == v % 256
  {
  }

  /** A string directive prints its argument in a field of blanks. */
  lemma RenderString(s: string, w: Written, rest: string, args: seq<Arg>, k: nat) returns (piece: string)
    requires Literal(s) && w.Ok() && w.conv == 's'
    ensures Render(s + ("%" + w.Show(rest)), args, k) == Then(s + piece, Render(rest, args, k + 1))
    ensures TextField(piece, if k < |args| && args[k].Chars? then args[k].s else "", w.width, w.left)
  {
    piece := StringText(StrArg(args, k), w.width, w.left);
    StringTextIs(StrArg(args, k), w.width, w.left);
    StringIs(w.Meaning(), args, k);
    RenderWith(s, w, rest, args, k, piece, true);
  }

  function BaseOf(c: char): nat { if c == 'b' then 2 else if c == 'o' || c == 'O' then 8 else if c == 'u' || c == 'U' then 10 else 16 }

  /** Any other character behind the prefixes is printed as it is, a second '%' too, and takes no argument. */
  lemma RenderOther(s: string, w: Written, rest: string, args: seq<Arg>, k: nat)
    requires Literal(s) && w.Ok() && !Signed(w.conv) && !Unsigned(w.conv, BaseOf(w.conv), w.conv == 'X') && w.conv != 'c' && w.conv != 's'
    ensures Render(s + ("%" + w.Show(rest)), args, k) == Then(s + [w.conv], Render(rest, args, k))
  {
    OtherIs(w.conv, w.Meaning(), args, k);
    RenderWith(s, w, rest, args, k, [w.conv], false);
  }

  lemma OtherIs(c: char, d: Directive, args: seq<Arg>, k: nat)
    requires !Signed(c) && !Unsigned(c, BaseOf(c), c == 'X') && c != 'c' && c != 's'
    ensures Piece(c, d, args, k) == ([c], false)
  {
  }

  /** A '%' that ends the string, or a directive cut short, prints nothing and reads no further. */
  lemma RenderCutShort(s: string, cut: string, args: seq<Arg>, k: nat)
    requires Literal(s) && ParseDirective(cut).1 == ""
    ensures Render(s + ("%" + cut), args, k) == Output(s + [NUL], false)
  {
    LiteralSkipped(s, "%" + cut);
    assert ("%" + cut)[1..] == cut;
  }
}
