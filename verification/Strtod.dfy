/** The decimal parser sc_strtod over exact reals. */
module Strtod {
  import opened Bits
  import opened Chars

  // ---------- text ----------

  /** The character at a position of a C string; the terminating NUL is at its end. */
  function At(s: string, p: nat): char {
    if p < |s| then s[p] else '\0'
  }

  predicate IsDigit(c: char) {
    '0' <= c <= '9'
  }

  predicate Digits(s: string) {
    forall k :: 0 <= k < |s| ==> IsDigit(s[k])
  }

  function SpacesEnd(s: string, p: nat): (e: nat)
    requires p <= |s|
    ensures p <= e <= |s| && !IsSpace(At(s, e))
    decreases |s| - p
  {
    if IsSpace(At(s, p)) then SpacesEnd(s, p + 1) else p
  }

  function DigitsEnd(s: string, p: nat): (e: nat)
    requires p <= |s|
    ensures p <= e <= |s| && !IsDigit(At(s, e)) && Digits(s[p..e])
    decreases |s| - p
  {
    if IsDigit(At(s, p)) then
      var e := DigitsEnd(s, p + 1);
      assert s[p..e] == [s[p]] + s[p + 1..e];
      e
    else p
  }

  function Digit(c: char): (d: int)
    requires IsDigit(c)
    ensures 0 <= d <= 9
  {
    c as int - '0' as int
  }

  /** The number a string of digits stands for. */
  function Value(s: string): nat
    requires Digits(s)
  {
    if s == "" then 0 else 10 * Value(s[..|s| - 1]) + Digit(s[|s| - 1])
  }

  // ---------- powers of ten ----------

  function Ten(n: nat): (r: real)
    ensures r >= 1.0
  {
    if n == 0 then 1.0 else 10.0 * Ten(n - 1)
  }

  function Pow10(z: int): (r: real)
    ensures r > 0.0
  {
    if z >= 0 then Ten(z) else 1.0 / Ten(-z)
  }

  lemma {:induction false} TenSum(a: nat, b: nat)
    ensures Ten(a + b) == Ten(a) * Ten(b)
  {
    if a > 0 { TenSum(a - 1, b); }
  }

  predicate IsProduct(w: real, x: real, y: real) {
    w == x * y
  }

  lemma {:induction false} PowProduct(a: int, b: int)
    ensures IsProduct(Pow10(a + b), Pow10(a), Pow10(b))
    decreases if a < 0 then -a else a
  {
    hide IsProduct, Pow10;
    if a == 0 {
      One(Pow10(b));
    } else if a > 0 {
      PowProduct(a - 1, b);
      PowNext(a - 1);
      PowNext(a - 1 + b);
      assert a - 1 + b + 1 == a + b;
      Times10(Pow10(a - 1), Pow10(b), Pow10(a - 1 + b), Pow10(a), Pow10(a + b));
    } else {
      PowProduct(a + 1, b);
      PowNext(a);
      PowNext(a + b);
      assert a + b + 1 == a + 1 + b;
      Over10(Pow10(a), Pow10(b), Pow10(a + b), Pow10(a + 1), Pow10(a + b + 1));
    }
  }

  lemma One(y: real)
    ensures IsProduct(y, Pow10(0), y)
  {
  }

  lemma Times10(x: real, y: real, w: real, x10: real, w10: real)
    requires IsProduct(w, x, y) && x10 == 10.0 * x && w10 == 10.0 * w
    ensures IsProduct(w10, x10, y)
  {
  }

  lemma Over10(x: real, y: real, w: real, x10: real, w10: real)
    requires IsProduct(w10, x10, y) && x10 == 10.0 * x && w10 == 10.0 * w
    ensures IsProduct(w, x, y)
  {
  }

  lemma PowNext(z: int)
    ensures Pow10(z + 1) == 10.0 * Pow10(z)
  {
    if z < -1 {
      assert Ten(-z) == 10.0 * Ten(-z - 1);
    }
  }

  // ---------- what the string says ----------

  /** The parts of the longest numeral at the front of a string. */
  datatype Numeral = Numeral(negative: bool, start: nat, whole: string, fraction: string, mantissaEnd: nat,
                             expNegative: bool, exponent: string, end: nat)

  predicate IsSign(c: char) {
    c == '-' || c == '+'
  }

  function Parse(s: string): (n: Numeral)
    ensures Scanned(n)
    ensures n.start + |n.whole| <= n.mantissaEnd <= n.end <= |s|
  {
    var blank := SpacesEnd(s, 0);
    var start := if IsSign(At(s, blank)) then blank + 1 else blank;
    var point := DigitsEnd(s, start);
    var mantissaEnd := if At(s, point) == '.' then DigitsEnd(s, point + 1) else point;
    var fraction := if At(s, point) == '.' then s[point + 1..mantissaEnd] else "";
    var marked := At(s, mantissaEnd) == 'E' || At(s, mantissaEnd) == 'e';
    var expStart :=
      if !marked then mantissaEnd else if IsSign(At(s, mantissaEnd + 1)) then mantissaEnd + 2 else mantissaEnd + 1;
    var end := if marked then DigitsEnd(s, expStart) else mantissaEnd;
    Numeral(At(s, blank) == '-', start, s[start..point], fraction, mantissaEnd,
            marked && At(s, mantissaEnd + 1) == '-', if marked then s[expStart..end] else "", end)
  }

  function AllDigits(n: Numeral): string {
    n.whole + n.fraction
  }

  const MAX_DIGITS: int := 18
  const MAX_EXPONENT: int := 511

  function Used(n: Numeral): nat {
    if |AllDigits(n)| > MAX_DIGITS then MAX_DIGITS else |AllDigits(n)|
  }

  function FieldValue(n: Numeral): int
    requires Digits(n.exponent)
  {
    if n.expNegative then 0 - Value(n.exponent) else Value(n.exponent)
  }

  /** The power of ten that goes with the digits used. */
  function Scale(n: Numeral): int
    requires Digits(n.exponent)
  {
    |n.whole| - Used(n) + FieldValue(n)
  }

  function Clamp(e: int): int {
    if e > MAX_EXPONENT then MAX_EXPONENT else if e < -MAX_EXPONENT then -MAX_EXPONENT else e
  }

  function Sign(n: Numeral): real {
    if n.negative then -1.0 else 1.0
  }

  predicate Scanned(n: Numeral) {
    Digits(n.whole) && Digits(n.fraction) && Digits(n.exponent)
  }

  /** First 18 digits of the mantissa, clamped power of ten. */
  function Magnitude(n: Numeral): real
    requires Scanned(n)
  {
    (Value(AllDigits(n)[..Used(n)]) as real) * Pow10(Clamp(Scale(n)))
  }

  /** The counts of the mantissa, point included, and the int arithmetic on the exponent stay in range. */
  predicate ExponentFits(n: Numeral)
    requires Digits(n.exponent)
  {
    && n.mantissaEnd - n.start < 0x8000_0000
    && Value(n.exponent) < 0x8000_0000 && -0x8000_0000 < Scale(n) < 0x8000_0000
  }

  /** A numeral in parts, as it is written out. */
  datatype Written = Written(blank: string, sign: string, whole: string, point: string, fraction: string,
                             mark: string, expSign: string, exponent: string, rest: string)

  /** Where each part ends. */
  datatype Ends = Ends(blank: nat, sign: nat, whole: nat, point: nat, fraction: nat, mark: nat, expSign: nat,
                       exponent: nat)

  function EndsOf(w: Written): Ends {
    var a := |w.blank|;
    var b := a + |w.sign|;
    var c := b + |w.whole|;
    var d := c + |w.point|;
    var e := d + |w.fraction|;
    var f := e + |w.mark|;
    var g := f + |w.expSign|;
    Ends(a, b, c, d, e, f, g, g + |w.exponent|)
  }

  /** The string is these parts, one after the other. */
  predicate Spells(s: string, w: Written) {
    var e := EndsOf(w);
    && |s| == e.exponent + |w.rest|
    && s[0..e.blank] == w.blank && s[e.blank..e.sign] == w.sign && s[e.sign..e.whole] == w.whole
    && s[e.whole..e.point] == w.point
    && s[e.point..e.fraction] == w.fraction && s[e.fraction..e.mark] == w.mark && s[e.mark..e.expSign] == w.expSign
    && s[e.expSign..e.exponent] == w.exponent && s[e.exponent..] == w.rest
  }

  /** Nothing, or one of two characters. */
  predicate Mark(t: string, a: char, b: char) {
    t == "" || (|t| == 1 && (t[0] == a || t[0] == b))
  }

  predicate Signs(t: string) {
    Mark(t, '-', '+')
  }

  predicate IsMinus(t: string) {
    t != "" && t[0] == '-'
  }

  /** Well written, and followed by something that does not continue it. */
  predicate WellWritten(w: Written) {
    && (forall k :: 0 <= k < |w.blank| ==> IsSpace(w.blank[k]))
    && Signs(w.sign) && Signs(w.expSign) && Mark(w.point, '.', '.') && Mark(w.mark, 'e', 'E')
    && Digits(w.whole) && Digits(w.fraction) && Digits(w.exponent)
    && (w.whole != "" || w.point != "") && (w.point == "" ==> w.fraction == "")
    && (w.mark == "" ==> w.expSign == "" && w.exponent == "")
    && var c := At(w.rest, 0);
       && !IsDigit(c)
       && (w.mark == "" ==> c != 'e' && c != 'E' && (w.point == "" ==> c != '.'))
       && (w.mark != "" && w.expSign == "" && w.exponent == "" ==> !IsSign(c))
  }

  lemma {:induction false} DigitsRun(s: string, p: nat, q: nat)
    requires p <= q <= |s| && Digits(s[p..q]) && !IsDigit(At(s, q))
    ensures DigitsEnd(s, p) == q
    decreases q - p
  {
    if p < q {
      assert s[p] == s[p..q][0];
      assert s[p + 1..q] == s[p..q][1..];
      DigitsRun(s, p + 1, q);
    }
  }

  lemma {:induction false} SpacesRun(s: string, p: nat, q: nat)
    requires p <= q <= |s| && (forall k :: p <= k < q ==> IsSpace(s[k])) && !IsSpace(At(s, q))
    ensures SpacesEnd(s, p) == q
    decreases q - p
  {
    if p < q { SpacesRun(s, p + 1, q); }
  }

  /** The first character of a part is at its place. */
  lemma First(s: string, p: nat, q: nat, t: string)
    requires p <= q <= |s| && s[p..q] == t
    ensures if t == "" then p == q else At(s, p) == t[0]
  {
    if t != "" { assert s[p] == s[p..q][0]; }
  }

  /** Each part starts with its own first character or, if it is empty, where the next one starts. */
  lemma Heads(s: string, w: Written)
    requires Spells(s, w)
    ensures var e := EndsOf(w);
      && (w.sign != "" ==> At(s, e.blank) == w.sign[0]) && (w.whole != "" ==> At(s, e.sign) == w.whole[0])
      && (w.point != "" ==> At(s, e.whole) == w.point[0]) && (w.fraction != "" ==> At(s, e.point) == w.fraction[0])
      && (w.mark != "" ==> At(s, e.fraction) == w.mark[0]) && (w.expSign != "" ==> At(s, e.mark) == w.expSign[0])
      && (w.exponent != "" ==> At(s, e.expSign) == w.exponent[0]) && At(s, e.exponent) == At(w.rest, 0)
  {
    var e := EndsOf(w);
    First(s, e.blank, e.sign, w.sign);
    First(s, e.sign, e.whole, w.whole);
    First(s, e.whole, e.point, w.point);
    First(s, e.point, e.fraction, w.fraction);
    First(s, e.fraction, e.mark, w.mark);
    First(s, e.mark, e.expSign, w.expSign);
    First(s, e.expSign, e.exponent, w.exponent);
    First(s, e.exponent, |s|, w.rest);
    assert s[e.exponent..|s|] == s[e.exponent..];
  }

  /** The runs of spaces and digits end where the parts do. */
  lemma Runs(s: string, w: Written)
    requires Spells(s, w) && WellWritten(w)
    ensures var e := EndsOf(w);
      && SpacesEnd(s, 0) == e.blank && DigitsEnd(s, e.sign) == e.whole
      && (w.point != "" ==> DigitsEnd(s, e.point) == e.fraction)
      && (w.mark != "" ==> DigitsEnd(s, e.expSign) == e.exponent)
  {
    var e := EndsOf(w);
    Heads(s, w);
    assert forall k :: 0 <= k < |w.blank| ==> s[k] == s[0..|w.blank|][k];
    SpacesRun(s, 0, e.blank);
    DigitsRun(s, e.sign, e.whole);
    if w.point != "" { DigitsRun(s, e.point, e.fraction); }
    if w.mark != "" { DigitsRun(s, e.expSign, e.exponent); }
  }

  /** The single characters are recognised where they stand, and nowhere else. */
  lemma Marks(s: string, w: Written)
    requires Spells(s, w) && WellWritten(w)
    ensures var e := EndsOf(w);
      && (At(s, e.blank) == '-' <==> IsMinus(w.sign))
      && e.sign == (if IsSign(At(s, e.blank)) then e.blank + 1 else e.blank)
      && (At(s, e.whole) == '.' <==> w.point != "") && (w.point != "" ==> e.point == e.whole + 1)
      && (w.point == "" ==> e.fraction == e.whole && w.fraction == "")
  {
    Heads(s, w);
    hide Spells, Digits, IsMinus;
    assert IsMinus(w.sign) <==> w.sign != "" && w.sign[0] == '-' by { Minus(w.sign); }
    if w.point == "" { assert |w.fraction| == 0; }
  }

  lemma ExponentMarks(s: string, w: Written)
    requires Spells(s, w) && WellWritten(w)
    ensures var e := EndsOf(w); var c := At(s, e.fraction);
      && (c == 'e' || c == 'E' <==> w.mark != "")
      && (w.mark != "" ==>
            && e.mark == e.fraction + 1 && (At(s, e.mark) == '-' <==> IsMinus(w.expSign))
            && e.expSign == (if IsSign(At(s, e.mark)) then e.mark + 1 else e.mark))
      && (w.mark == "" ==> e.exponent == e.fraction && w.exponent == "" && !IsMinus(w.expSign))
  {
    Heads(s, w);
    hide Spells, Digits, IsMinus;
    assert IsMinus(w.expSign) <==> w.expSign != "" && w.expSign[0] == '-' by { Minus(w.expSign); }
    if w.mark == "" { assert |w.expSign| == |w.exponent| == 0; }
  }

  lemma Minus(t: string)
    ensures IsMinus(t) <==> t != "" && t[0] == '-'
  {
  }

  // ---------- the parser ----------

  lemma {:induction false} ValuePrefix(s: string, k: nat)
    requires Digits(s) && k <= |s|
    ensures Value(s[..k]) <= Value(s)
  {
    if k < |s| {
      assert s[..|s| - 1][..k] == s[..k];
      ValuePrefix(s[..|s| - 1], k);
    } else {
      assert s[..k] == s;
    }
  }

  /** A string of digits is below the power of ten of its length. */
  lemma {:induction false} ValueBound(s: string)
    requires Digits(s)
    ensures (Value(s) as real) <= Ten(|s|) - 1.0
  {
    if s != "" { ValueBound(s[..|s| - 1]); }
  }

  /** Digits in front of digits: `high` is what those in front are worth. */
  lemma {:induction false} ValueJoin(a: string, b: string) returns (high: real)
    requires Digits(a) && Digits(b)
    ensures IsProduct(high, Value(a) as real, Ten(|b|)) && Digits(a + b)
    ensures Value(a + b) as real == high + Value(b) as real
  {
    if b == "" {
      assert a + b == a;
      high := Value(a) as real;
    } else {
      var c := b[..|b| - 1];
      high := ValueJoin(a, c);
      assert (a + b)[..|a + b| - 1] == a + c;
      assert Ten(|b|) == 10.0 * Ten(|c|);
      hide IsProduct, Ten;
      Times10Right(Value(a) as real, Ten(|c|), high, Ten(|b|));
      high := 10.0 * high;
    }
  }

  lemma Times10Right(x: real, y: real, w: real, y10: real)
    requires IsProduct(w, x, y) && y10 == 10.0 * y
    ensures IsProduct(10.0 * w, x, y10)
  {
  }

  /** The end of the leading white space, and past a sign. */
  method ScanStart(s: string) returns (negative: bool, p: nat)
    ensures negative == Parse(s).negative && p == Parse(s).start
  {
    p := 0;
    while IsSpace(At(s, p))
      invariant p <= |s| && SpacesEnd(s, p) == SpacesEnd(s, 0)
      decreases |s| - p
    {
      p := p + 1;
    }
    if At(s, p) == '-' {
      negative := true;
      p := p + 1;
    } else {
      if At(s, p) == '+' { p := p + 1; }
      negative := false;
    }
  }

  /** Counts digits and the point, up to a second point or any other character. */
  method ScanMantissa(s: string, start: nat) returns (mantSize: nat, decPt: int)
    requires start <= |s|
    ensures var point := DigitsEnd(s, start);
      if At(s, point) == '.' then decPt == point - start && mantSize == DigitsEnd(s, point + 1) - start
      else decPt == -1 && mantSize == point - start
  {
    mantSize, decPt := 0, -1;
    var p := start;
    ghost var point := DigitsEnd(s, start);
    while true
      invariant p == start + mantSize <= |s|
      invariant decPt < 0 ==> decPt == -1 && DigitsEnd(s, p) == point
      invariant decPt >= 0 ==>
        decPt == point - start && At(s, point) == '.' && point < p && DigitsEnd(s, p) == DigitsEnd(s, point + 1)
      decreases |s| - p
    {
      var c := At(s, p);
      if !IsDigit(c) {
        if c != '.' || decPt >= 0 { break; }
        decPt := mantSize;
      }
      p := p + 1;
      mantSize := mantSize + 1;
    }
  }

  /** The mantissa text holds its digits in order, with at most a point among them. */
  ghost predicate Holds(s: string, start: nat, whole: nat, d: string) {
    && Digits(d) && whole <= |d|
    && (forall k {:trigger d[k]} :: 0 <= k < whole ==> At(s, start + k) == d[k])
    && (forall k {:trigger d[k]} :: whole <= k < |d| ==> At(s, start + whole) == '.' && At(s, start + k + 1) == d[k])
  }

  lemma ParseHolds(s: string)
    ensures var n := Parse(s); Holds(s, n.start, |n.whole|, AllDigits(n))
  {
    var n := Parse(s);
    var d := AllDigits(n);
    forall k | |n.whole| <= k < |d|
      ensures At(s, n.start + |n.whole|) == '.' && At(s, n.start + k + 1) == d[k]
    {
      assert d[k] == n.fraction[k - |n.whole|];
    }
  }

  /** Where the next digit is looked for after k of them. */
  function Place(start: nat, whole: nat, k: nat): nat {
    start + k + (if k > whole then 1 else 0)
  }

  /** Up to nine digits into an int accumulator, stepping over the point. */
  method ReadDigits(s: string, ghost start: nat, ghost whole: nat, ghost d: string, ghost from: nat, size: nat, at: nat)
    returns (frac: int, p: nat)
    requires Holds(s, start, whole, d) && from + size <= |d| && size <= 9 && at == Place(start, whole, from)
    ensures p == Place(start, whole, from + size) && frac == Value(d[from..from + size]) && frac <= 999999999
  {
    frac, p := 0, at;
    var left := size;
    while left > 0
      invariant 0 <= left <= size && p == Place(start, whole, from + size - left)
      invariant frac == Value(d[from..from + size - left]) && frac <= 999999999
    {
      ghost var k := from + size - left;
      var c := At(s, p);
      p := p + 1;
      assert d[k] == d[k];
      if c == '.' {
        c := At(s, p);
        p := p + 1;
      }
      assert c == d[k];
      ghost var e := d[from..k + 1];
      assert e[..|e| - 1] == d[from..k];
      frac := 10 * frac + Digit(c);
      ValueBound(e);
      NineDigits(|e|);
      left := left - 1;
    }
  }

  lemma NineDigits(n: nat)
    requires n <= 9
    ensures Ten(n) <= 1000000000.0
  {
    TenUp(n, 9);
    assert Ten(4) == 10000.0;
    assert Ten(9) == 1000000000.0 by { TenSum(4, 5); assert Ten(5) == 100000.0; }
  }

  lemma {:induction false} TenUp(a: nat, b: nat)
    requires a <= b
    ensures Ten(a) <= Ten(b)
    decreases b
  {
    if a < b { TenUp(a, b - 1); }
  }

  lemma MantissaParts(s: string, mantSize: nat, decPt: int)
    requires var start := Parse(s).start; var point := DigitsEnd(s, start);
      if At(s, point) == '.' then decPt == point - start && mantSize == DigitsEnd(s, point + 1) - start
      else decPt == -1 && mantSize == point - start
    ensures var n := Parse(s);
      && n.mantissaEnd == n.start + mantSize
      && (decPt < 0 ==> |n.whole| == mantSize && n.fraction == "")
      && (decPt >= 0 ==> decPt == |n.whole| && mantSize == |n.whole| + 1 + |n.fraction|)
  {
    hide DigitsEnd, SpacesEnd;
  }

  /** Where the digits of the exponent are. */
  function ExponentStart(s: string, p: nat): nat {
    if IsSign(At(s, p + 1)) then p + 2 else p + 1
  }

  lemma ExponentParts(s: string)
    ensures var n := Parse(s); var p := n.mantissaEnd; var from := ExponentStart(s, p);
      if At(s, p) == 'E' || At(s, p) == 'e' then
        && from <= n.end == DigitsEnd(s, from) && n.exponent == s[from..n.end]
        && n.expNegative == (At(s, p + 1) == '-')
      else n.end == p && n.exponent == "" && !n.expNegative
  {
    hide DigitsEnd, SpacesEnd;
  }

  lemma Slices(s: string, w: Written)
    requires Spells(s, w)
    ensures var e := EndsOf(w);
      && e.sign <= e.whole <= e.point <= e.fraction <= e.expSign <= e.exponent == |s| - |w.rest|
      && s[e.sign..e.whole] == w.whole && s[e.point..e.fraction] == w.fraction && s[e.expSign..e.exponent] == w.exponent
  {
  }

  lemma MantissaFound(s: string)
    ensures var n := Parse(s); var blank := SpacesEnd(s, 0); var point := DigitsEnd(s, n.start);
      && n.start == (if IsSign(At(s, blank)) then blank + 1 else blank) && (n.negative <==> At(s, blank) == '-')
      && n.whole == s[n.start..point]
      && (if At(s, point) == '.' then
            n.mantissaEnd == DigitsEnd(s, point + 1) && n.fraction == s[point + 1..n.mantissaEnd]
          else n.mantissaEnd == point && n.fraction == "")
  {
    hide SpacesEnd, DigitsEnd, At, IsSign, Digits;
  }

  lemma MantissaWritten(s: string, w: Written)
    requires Spells(s, w) && WellWritten(w)
    ensures var n := Parse(s);
      && n.negative == IsMinus(w.sign) && n.whole == w.whole && n.fraction == w.fraction
      && n.mantissaEnd == EndsOf(w).fraction
  {
    hide SpacesEnd, DigitsEnd, Digits, WellWritten, IsMinus, At, IsSign, Spells, EndsOf, Parse;
    Slices(s, w);
    Marks(s, w);
    Runs(s, w);
    MantissaFound(s);
  }

  /** Parse finds the parts of every well-written numeral, and ends right after it. */
  lemma ParsesWritten(s: string, w: Written)
    requires Spells(s, w) && WellWritten(w)
    ensures var n := Parse(s);
      && n.negative == IsMinus(w.sign) && n.whole == w.whole && n.fraction == w.fraction
      && n.expNegative == IsMinus(w.expSign) && n.exponent == w.exponent
      && n.end == |s| - |w.rest|
  {
    hide SpacesEnd, DigitsEnd, Digits, WellWritten, IsMinus, At, IsSign, Spells, EndsOf, Parse;
    Slices(s, w);
    MantissaWritten(s, w);
    ExponentMarks(s, w);
    Runs(s, w);
    ExponentParts(s);
  }

  /** The mantissa's first 18 digits in two int accumulators, and the exponent that goes with them. */
  method ReadMantissa(s: string) returns (negative: bool, mantSize: nat, fraction: real, fracExp: int, pExp: nat)
    ensures var n := Parse(s);
      && negative == n.negative && mantSize == Used(n) && pExp == n.mantissaEnd && fracExp == |n.whole| - Used(n)
      && fraction == Value(AllDigits(n)[..Used(n)]) as real
  {
    hide Value, DigitsEnd, SpacesEnd, Parse;
    ghost var n := Parse(s);
    ghost var d := AllDigits(n);
    var start: nat;
    negative, start := ScanStart(s);
    var decPt: int;
    mantSize, decPt := ScanMantissa(s, start);
    MantissaParts(s, mantSize, decPt);
    pExp := start + mantSize;
    if decPt < 0 {
      decPt := mantSize;
    } else {
      mantSize := mantSize - 1;
    }
    assert mantSize == |d| && decPt == |n.whole|;
    if mantSize > 18 {
      fracExp := decPt - 18;
      mantSize := 18;
    } else {
      fracExp := decPt - mantSize;
    }
    ParseHolds(s);
    var first := if mantSize > 9 then mantSize - 9 else 0;
    var frac1, p := ReadDigits(s, start, |n.whole|, d, 0, first, start);
    var frac2, q := ReadDigits(s, start, |n.whole|, d, first, mantSize - first, p);
    fraction := 1000000000.0 * frac1 as real + frac2 as real;
    TwoAccumulators(d, first, mantSize);
  }

  lemma TwoAccumulators(d: string, first: nat, size: nat)
    requires Digits(d) && first <= size <= |d| && (first == 0 || size - first == 9)
    ensures 1000000000.0 * (Value(d[0..first]) as real) + Value(d[first..size]) as real == Value(d[..size]) as real
  {
    var a, b := d[0..first], d[first..size];
    assert d[..size] == a + b;
    var high := ValueJoin(a, b);
    if first == 0 {
      assert Value(a) == 0;
    } else {
      NineIs();
    }
  }

  lemma NineIs()
    ensures Ten(9) == 1000000000.0
  {
    TenSum(4, 5);
    assert Ten(4) == 10000.0 && Ten(5) == 100000.0;
  }

  /** The exponent field: marker, sign and digits, if there is a marker. */
  method ReadExponent(s: string, pExp: nat) returns (expSign: bool, exp: int, p: nat)
    requires pExp == Parse(s).mantissaEnd && Value(Parse(s).exponent) < 0x8000_0000
    ensures var n := Parse(s); expSign == n.expNegative && exp == Value(n.exponent) && p == n.end
  {
    hide Value, DigitsEnd, SpacesEnd, Parse;
    ghost var n := Parse(s);
    ExponentParts(s);
    NoValue();
    expSign, exp, p := false, 0, pExp;
    if At(s, p) == 'E' || At(s, p) == 'e' {
      p := p + 1;
      if At(s, p) == '-' {
        expSign := true;
        p := p + 1;
      } else {
        if At(s, p) == '+' { p := p + 1; }
        expSign := false;
      }
      exp, p := ReadInt(s, p, n.exponent);
    }
  }

  lemma NoValue()
    ensures Value("") == 0
  {
  }

  /** The digits of the exponent; the int stays in range when the whole field does. */
  method ReadInt(s: string, at: nat, ghost field: string) returns (exp: int, p: nat)
    requires at <= |s| && field == s[at..DigitsEnd(s, at)] && Value(field) < 0x8000_0000
    ensures exp == Value(field) && p == DigitsEnd(s, at)
  {
    exp, p := 0, at;
    ghost var end := DigitsEnd(s, at);
    while IsDigit(At(s, p))
      invariant at <= p <= end && DigitsEnd(s, p) == end
      invariant exp == Value(field[..p - at]) && exp < 0x8000_0000
      decreases end - p
    {
      ghost var k := p - at;
      assert field[k] == s[p] && field[..k + 1][..k] == field[..k];
      ValuePrefix(field, k + 1);
      exp := exp * 10 + Digit(At(s, p));
      p := p + 1;
    }
    assert field[..p - at] == field;
  }

  /** The table of binary powers of ten: entry i is 10^(2^i). */
  const POWERS_OF_10: seq<real> := [Ten(1), Ten(2), Ten(4), Ten(8), Ten(16), Ten(32), Ten(64), Ten(128), Ten(256)]

  lemma TableEntry(i: nat)
    requires i < |POWERS_OF_10|
    ensures POWERS_OF_10[i] == Ten(Pow2(i))
  {
    hide Ten;
    assert Pow2(4) == 16;
    assert Pow2(8) == 16 * Pow2(4) == 256;
  }

  lemma {:induction false} Pow2Up(a: nat, b: nat)
    requires a <= b
    ensures Pow2(a) <= Pow2(b)
    decreases b
  {
    if a < b { Pow2Up(a, b - 1); }
  }

  /** The part of the exponent still to come. */
  function Weight(exp: nat, i: nat): nat {
    exp * Pow2(i)
  }

  /** Nine entries are enough: a tenth bit would put the exponent past 511. */
  lemma TableEnough(i: nat, exp: nat)
    requires exp > 0 && Weight(exp, i) <= 511
    ensures i < |POWERS_OF_10|
  {
    assert Pow2(4) == 16;
    assert Pow2(9) == 32 * Pow2(4) == 512;
    if i >= 9 { Pow2Up(9, i); }
  }

  lemma NoBits(e: nat)
    ensures Weight(e, 0) == e && IsProduct(Ten(e), 1.0, Ten(e))
  {
  }

  lemma AllBits(e: nat, r: real, i: nat)
    requires IsProduct(Ten(e), r, Ten(Weight(0, i)))
    ensures r == Ten(e)
  {
    assert Weight(0, i) == 0;
  }

  lemma WeightStep(exp: nat, i: nat)
    ensures Weight(exp, i) == Weight(exp / 2, i + 1) + (if exp % 2 == 1 then Pow2(i) else 0)
  {
    var t := Pow2(i);
    assert exp == exp / 2 * 2 + exp % 2;
    assert Pow2(i + 1) == 2 * t;
    Halves(exp / 2, exp % 2, t);
  }

  lemma Halves(half: nat, bit: nat, t: nat)
    ensures (half * 2 + bit) * t == half * (2 * t) + bit * t
  {
  }

  /** The lowest bit of the exponent moves into the product. */
  lemma BitStep(e: nat, r: real, next: real, exp: nat, i: nat)
    requires IsProduct(Ten(e), r, Ten(Weight(exp, i)))
    requires exp % 2 == 1 ==> IsProduct(next, r, Ten(Pow2(i)))
    requires exp % 2 == 0 ==> next == r
    ensures Weight(exp / 2, i + 1) <= Weight(exp, i)
    ensures IsProduct(Ten(e), next, Ten(Weight(exp / 2, i + 1)))
  {
    hide Ten, Pow2, IsProduct, Weight;
    WeightStep(exp, i);
    if exp % 2 == 1 {
      var t, rest := Pow2(i), Weight(exp / 2, i + 1);
      assert IsProduct(Ten(t + rest), Ten(t), Ten(rest)) by { TenProduct(t, rest); }
      Shift(Ten(e), r, Ten(t), Ten(rest), next, Ten(t + rest));
    }
  }

  lemma TenProduct(a: nat, b: nat)
    ensures IsProduct(Ten(a + b), Ten(a), Ten(b))
  {
    TenSum(a, b);
  }

  lemma Shift(w: real, r: real, x: real, y: real, rx: real, xy: real)
    requires IsProduct(w, r, xy) && IsProduct(xy, x, y) && IsProduct(rx, r, x)
    ensures IsProduct(w, rx, y)
  {
    assert r * (x * y) == (r * x) * y;
  }

  lemma Product(w: real, r: real, x: real)
    requires w == r * x
    ensures IsProduct(w, r, x)
  {
  }

  /** Ten to an exponent of nine bits, one bit at a time. */
  method PowerByBits(e: nat) returns (dblExp: real)
    requires e <= MAX_EXPONENT
    ensures dblExp == Ten(e)
  {
    hide Ten, Pow2, IsProduct, Weight;
    NoBits(e);
    dblExp := 1.0;
    var exp, d := e, 0;
    while exp != 0
      invariant exp >= 0 && d >= 0 && Weight(exp, d) <= e
      invariant IsProduct(Ten(e), dblExp, Ten(Weight(exp, d)))
    {
      TableEnough(d, exp);
      TableEntry(d);
      ghost var was := dblExp;
      if exp % 2 == 1 {
        dblExp := dblExp * POWERS_OF_10[d];
        Product(dblExp, was, POWERS_OF_10[d]);
      }
      BitStep(e, was, dblExp, exp, d);
      exp := exp / 2;
      d := d + 1;
    }
    AllBits(e, dblExp, d);
  }

  /** sc_strtod: the value, the position where the numeral ends, and whether errno is set to ERANGE. */
  method ScStrtod(s: string) returns (value: real, endPtr: nat, rangeError: bool)
    requires AllDigits(Parse(s)) != "" ==> ExponentFits(Parse(s))
    ensures var n := Parse(s);
      if AllDigits(n) == "" then value == 0.0 && endPtr == 0 && !rangeError
      else
        && value == Sign(n) * Magnitude(n) && endPtr == n.end
        && (rangeError <==> Scale(n) < -MAX_EXPONENT || MAX_EXPONENT < Scale(n))
  {
    hide Ten, Value, DigitsEnd, SpacesEnd, Parse;
    var sign, mantSize, fraction, fracExp, pExp := ReadMantissa(s);
    var p := 0;
    rangeError := false;
    if mantSize == 0 {
      fraction := 0.0;
    } else {
      var expSign, exp;
      expSign, exp, p := ReadExponent(s, pExp);
      if expSign {
        exp := fracExp - exp;
      } else {
        exp := fracExp + exp;
      }
      assert exp == Scale(Parse(s));
      if exp < 0 {
        expSign := true;
        exp := -exp;
      } else {
        expSign := false;
      }
      if exp > MAX_EXPONENT {
        exp := MAX_EXPONENT;
        rangeError := true;
      }
      var dblExp := PowerByBits(exp);
      if expSign {
        fraction := fraction / dblExp;
      } else {
        fraction := fraction * dblExp;
      }
    }
    endPtr := p;
    if sign {
      value := -fraction;
    } else {
      value := fraction;
    }
  }

  // ---------- what the result means ----------

  /** The number after a decimal point. */
  function FractionValue(f: string): real
    requires Digits(f)
  {
    if f == "" then 0.0 else (Digit(f[0]) as real + FractionValue(f[1..])) / 10.0
  }

  /** The number that the numeral denotes, without its sign. */
  function Denoted(n: Numeral): real
    requires Scanned(n)
  {
    (Value(n.whole) as real + FractionValue(n.fraction)) * Pow10(FieldValue(n))
  }

  /** The first 18 digits as a whole number, and what the other digits add to it. */
  function Kept(n: Numeral): nat
    requires Scanned(n)
  {
    Value(AllDigits(n)[..Used(n)])
  }

  function Dropped(n: Numeral): real
    requires Scanned(n)
  {
    var rest := AllDigits(n)[Used(n)..];
    (Value(rest) as real) / Ten(|rest|)
  }

  lemma OneDigit(c: char)
    requires IsDigit(c)
    ensures Value([c]) == Digit(c)
  {
    assert [c][..0] == "";
  }

  lemma {:induction false} FractionDigits(f: string)
    requires Digits(f)
    ensures IsProduct(Value(f) as real, FractionValue(f), Ten(|f|))
  {
    if f != "" {
      var rest := f[1..];
      FractionDigits(rest);
      assert f == [f[0]] + rest;
      var high := ValueJoin([f[0]], rest);
      OneDigit(f[0]);
      assert Ten(|f|) == 10.0 * Ten(|rest|);
      assert FractionValue(f) == (Digit(f[0]) as real + FractionValue(rest)) / 10.0;
      hide IsProduct, Ten, Value, FractionValue;
      Tenth(Digit(f[0]) as real, FractionValue(rest), Ten(|rest|), high, Value(rest) as real, FractionValue(f),
            Ten(|f|));
    }
  }

  lemma Tenth(d: real, v: real, t: real, dt: real, vt: real, dv: real, t10: real)
    requires IsProduct(dt, d, t) && IsProduct(vt, v, t) && dv == (d + v) / 10.0 && t10 == 10.0 * t
    ensures IsProduct(dt + vt, dv, t10)
  {
    assert dv * (10.0 * t) == (10.0 * dv) * t;
  }

  lemma DroppedBelowOne(n: Numeral)
    requires Scanned(n)
    ensures 0.0 <= Dropped(n) < 1.0 && (|AllDigits(n)| <= MAX_DIGITS ==> Dropped(n) == 0.0)
    ensures Dropped(n) == 0.0 <==> Value(AllDigits(n)[Used(n)..]) == 0
  {
    var rest := AllDigits(n)[Used(n)..];
    ValueBound(rest);
    Ratio(Value(rest) as real, Ten(|rest|));
    if |AllDigits(n)| <= MAX_DIGITS { assert rest == ""; }
  }

  lemma Ratio(a: real, t: real)
    requires 0.0 <= a <= t - 1.0
    ensures 0.0 <= a / t < 1.0 && (a / t == 0.0 <==> a == 0.0)
  {
    assert a == a / t * t;
  }

  /** The number denoted, by its digits. */
  lemma DenotedDigits(n: Numeral)
    requires Scanned(n)
    ensures IsProduct(Denoted(n), Kept(n) as real + Dropped(n), Pow10(Scale(n)))
  {
    var d, w, f, m := AllDigits(n), n.whole, n.fraction, Used(n);
    var rest := d[m..];
    var low := FieldValue(n) - |f|;
    assert low + |f| == FieldValue(n) && low + |rest| == Scale(n);
    hide Ten, Value, FractionValue, Pow10, IsProduct, Digits, Denoted, FieldValue;
    var wf, kr := TwoSplits(n);
    FractionDigits(f);
    PowTen(low, |f|);
    PowTen(low, |rest|);
    DenotedIs(n);
    Rescale(Value(w) as real, FractionValue(f), wf, Value(f) as real, Value(d[..m]) as real, kr, Value(rest) as real,
            Ten(|f|), Ten(|rest|), Pow10(low), Pow10(FieldValue(n)), Pow10(Scale(n)), Denoted(n));
  }

  lemma TwoSplits(n: Numeral) returns (wf: real, kr: real)
    requires Scanned(n)
    ensures var d, m := AllDigits(n), Used(n);
      && IsProduct(wf, Value(n.whole) as real, Ten(|n.fraction|)) && IsProduct(kr, Value(d[..m]) as real, Ten(|d[m..]|))
      && wf + Value(n.fraction) as real == kr + Value(d[m..]) as real
  {
    hide Ten, Value, IsProduct;
    var d, m := AllDigits(n), Used(n);
    wf := ValueJoin(n.whole, n.fraction);
    kr := ValueJoin(d[..m], d[m..]);
    assert d == d[..m] + d[m..];
  }

  lemma DenotedIs(n: Numeral)
    requires Scanned(n)
    ensures IsProduct(Denoted(n), Value(n.whole) as real + FractionValue(n.fraction), Pow10(FieldValue(n)))
  {
    hide Value, FractionValue, Pow10, FieldValue;
  }

  lemma MagnitudeIs(n: Numeral)
    requires Scanned(n)
    ensures IsProduct(Magnitude(n), Kept(n) as real, Pow10(Clamp(Scale(n))))
  {
    hide Value, Pow10, Scale, Clamp;
  }

  lemma PowTen(z: int, k: nat)
    ensures IsProduct(Pow10(z + k), Ten(k), Pow10(z))
  {
    hide IsProduct;
    PowProduct(k, z);
    assert k + z == z + k;
  }

  lemma Rescale(w: real, fv: real, wf: real, f: real, k: real, kr: real, r: real,
                tf: real, tr: real, p: real, px: real, ps: real, y: real)
    requires tr >= 1.0 && IsProduct(wf, w, tf) && IsProduct(f, fv, tf) && IsProduct(kr, k, tr) && wf + f == kr + r
    requires IsProduct(px, tf, p) && IsProduct(ps, tr, p) && IsProduct(y, w + fv, px)
    ensures IsProduct(y, k + r / tr, ps)
  {
    var q := r / tr;
    assert q * tr == r;
    assert (w + fv) * tf == (k + q) * tr;
    Swap(w + fv, tf, p);
    Swap(k + q, tr, p);
  }

  lemma Swap(x: real, y: real, z: real)
    ensures x * (y * z) == (x * y) * z
  {
  }

  lemma {:induction false} PowUp(a: int, b: int)
    requires a < b
    ensures 10.0 * Pow10(a) <= Pow10(b)
    decreases b - a
  {
    PowNext(a);
    if a + 1 < b {
      PowUp(a + 1, b);
    }
  }

  /** Within range the result is the number denoted, rounded toward zero at the 18th digit. */
  lemma Truncates(n: Numeral)
    requires Scanned(n) && -MAX_EXPONENT <= Scale(n) <= MAX_EXPONENT
    ensures Magnitude(n) <= Denoted(n) < Magnitude(n) + Pow10(Scale(n))
    ensures |AllDigits(n)| <= MAX_DIGITS ==> Magnitude(n) == Denoted(n)
  {
    DenotedDigits(n);
    MagnitudeIs(n);
    DroppedBelowOne(n);
    hide Kept, Dropped, Scale, Pow10, Value, IsProduct, Magnitude, Denoted;
    Spread(Kept(n) as real, Dropped(n), Pow10(Scale(n)), Magnitude(n), Denoted(n));
  }

  lemma Spread(k: real, d: real, p: real, mag: real, y: real)
    requires 0.0 <= d < 1.0 && p > 0.0 && IsProduct(mag, k, p) && IsProduct(y, k + d, p)
    ensures mag <= y < mag + p && (d == 0.0 <==> mag == y)
  {
    var t := Part(d, p);
    assert y == mag + t;
  }

  lemma Part(d: real, p: real) returns (t: real)
    requires 0.0 <= d < 1.0 && p > 0.0
    ensures t == d * p && 0.0 <= t < p && (d == 0.0 <==> t == 0.0)
  {
    t := d * p;
    if d > 0.0 { assert t > 0.0; } else { assert t == 0.0; }
    var u := 1.0 - d;
    assert u * p > 0.0;
    assert u * p == p - t;
  }

  /** The result is exactly the number denoted when the digits after the 18th are all zero and the power
      of ten is not clamped (or there is nothing to scale), and only then. */
  lemma ExactIff(n: Numeral)
    requires Scanned(n)
    ensures Magnitude(n) == Denoted(n) <==>
      Value(AllDigits(n)[Used(n)..]) == 0 && (Kept(n) == 0 || -MAX_EXPONENT <= Scale(n) <= MAX_EXPONENT)
  {
    DenotedDigits(n);
    MagnitudeIs(n);
    DroppedBelowOne(n);
    var k, d, e := Kept(n), Dropped(n), Scale(n);
    hide Kept, Dropped, Scale, Pow10, Value, IsProduct, Magnitude, Denoted;
    if e > MAX_EXPONENT {
      PowUp(MAX_EXPONENT, e);
      Clamped(k, d, Pow10(e), Pow10(MAX_EXPONENT), Magnitude(n), Denoted(n));
    } else if e < -MAX_EXPONENT {
      PowUp(e, -MAX_EXPONENT);
      Clamped(k, d, Pow10(e), Pow10(-MAX_EXPONENT), Magnitude(n), Denoted(n));
    } else {
      Spread(k as real, d, Pow10(e), Magnitude(n), Denoted(n));
    }
  }

  lemma Clamped(k: nat, d: real, p: real, q: real, mag: real, y: real)
    requires 0.0 <= d < 1.0 && p > 0.0 && q > 0.0 && (10.0 * q <= p || 10.0 * p <= q)
    requires IsProduct(mag, k as real, q) && IsProduct(y, k as real + d, p)
    ensures mag == y <==> d == 0.0 && k == 0
  {
    var x := k as real;
    if k == 0 {
      assert x * q == 0.0 && (x + d) * p == d * p;
      if d > 0.0 { assert d * p > 0.0; }
    } else {
      assert x >= 1.0;
      if 10.0 * q <= p {
        Larger(x, x + d, q, p);
      } else {
        Smaller(x, x + d, q, p);
      }
    }
  }

  lemma Larger(x: real, z: real, q: real, p: real)
    requires 1.0 <= x <= z && 0.0 < q < p
    ensures x * q < z * p
  {
    assert x * q < x * p;
    assert x * p <= z * p;
  }

  lemma Smaller(x: real, z: real, q: real, p: real)
    requires 1.0 <= x && z < 2.0 * x && 0.0 < p && 10.0 * p <= q
    ensures z * p < x * q
  {
    assert z * p < (2.0 * x) * p;
    assert (2.0 * x) * p == x * (2.0 * p);
    assert x * (2.0 * p) <= x * q;
  }

  // ---------- with the sign ----------

  /** A digit's value is its place among the digits. */
  lemma DigitPlace(c: char)
    requires IsDigit(c)
    ensures "0123456789"[Digit(c)] == c
  {
  }

  /** The number that a numeral denotes, as it is written out. */
  function NumberWritten(w: Written): real
    requires WellWritten(w)
  {
    var exponent := if w.expSign == "-" then 0 - Value(w.exponent) else Value(w.exponent);
    var size := (Value(w.whole) as real + FractionValue(w.fraction)) * Pow10(exponent);
    if w.sign == "-" then 0.0 - size else size
  }

  /** The first 18 digits, and the rest. */
  function Leading(w: Written): string {
    var digits := w.whole + w.fraction;
    if |digits| > 18 then digits[..18] else digits
  }

  function Trailing(w: Written): string {
    (w.whole + w.fraction)[|Leading(w)|..]
  }

  /** For every well-written numeral the result is the number written, exactly under the condition of ExactIff,
      and it is negative exactly for a "-" in front of digits that are not all zero. */
  lemma ResultWritten(s: string, w: Written)
    requires Spells(s, w) && WellWritten(w)
    ensures var n, kept := Parse(s), Leading(w);
      var value := Sign(n) * Magnitude(n);
      && Digits(kept) && Digits(Trailing(w))
      && (value == NumberWritten(w) <==>
            Value(Trailing(w)) == 0 && (Value(kept) == 0 || -511 <= Scale(n) <= 511))
      && (value < 0.0 <==> w.sign == "-" && Value(kept) != 0)
  {
    hide Parse, Spells, Value, FractionValue, Pow10, Ten, Scale, Magnitude, Denoted, NumberWritten, Sign, IsProduct;
    ParsesWritten(s, w);
    var n := Parse(s);
    KeptWritten(n, w);
    SignedDenoted(n, w);
    ExactIff(n);
    MagnitudeIs(n);
    NonNegative(Kept(n) as real, Pow10(Clamp(Scale(n))), Magnitude(n));
    SameSign(n, Magnitude(n), Denoted(n));
  }

  lemma KeptWritten(n: Numeral, w: Written)
    requires Scanned(n) && n.whole == w.whole && n.fraction == w.fraction
    ensures Digits(Leading(w)) && Digits(Trailing(w))
    ensures AllDigits(n)[..Used(n)] == Leading(w) && AllDigits(n)[Used(n)..] == Trailing(w)
  {
  }

  lemma SignedDenoted(n: Numeral, w: Written)
    requires WellWritten(w) && Scanned(n)
    requires n.negative == IsMinus(w.sign) && n.whole == w.whole && n.fraction == w.fraction
    requires n.expNegative == IsMinus(w.expSign) && n.exponent == w.exponent
    ensures NumberWritten(w) == Sign(n) * Denoted(n) && (n.negative <==> w.sign == "-")
  {
    hide Value, FractionValue, Pow10, Ten;
    assert w.sign == "-" <==> IsMinus(w.sign);
    assert w.expSign == "-" <==> IsMinus(w.expSign);
  }

  lemma NonNegative(k: real, p: real, mag: real)
    requires k >= 0.0 && p > 0.0 && IsProduct(mag, k, p)
    ensures mag >= 0.0 && (mag == 0.0 <==> k == 0.0)
  {
    if k > 0.0 { assert k * p > 0.0; }
  }

  lemma SameSign(n: Numeral, x: real, y: real)
    requires x >= 0.0
    ensures Sign(n) * x == Sign(n) * y <==> x == y
    ensures Sign(n) * x < 0.0 <==> n.negative && x != 0.0
  {
  }

  /** Every digit once, a point, and both signs. */
  lemma TenDigits()
    ensures var n := Parse("-1234567.890e-2"); Scanned(n) && Sign(n) * Magnitude(n) == -12345.6789
  {
    var s := "-1234567.890e-2";
    var w := Written("", "-", "1234567", ".", "890", "e", "-", "2", "");
    assert Spells(s, w) by { TenDigitsSpelt(); }
    ParsesWritten(s, w);
    var n := Parse(s);
    hide Parse, Spells, WellWritten, Value, Ten, Magnitude;
    FiveBelow(n);
  }

  lemma FiveBelow(n: Numeral)
    requires Scanned(n) && n.whole == "1234567" && n.fraction == "890" && n.exponent == "2" && n.expNegative
    ensures Magnitude(n) == 12345.6789
  {
    assert AllDigits(n) == "1234567890";
    assert AllDigits(n)[..10] == AllDigits(n);
    OneDigit('2');
    DigitValues();
    FiveTens();
    hide Value, Ten;
    assert Scale(n) == -5;
    assert Magnitude(n) == 1234567890.0 * (1.0 / 100000.0);
  }

  lemma TenDigitsSpelt()
    ensures Spells("-1234567.890e-2", Written("", "-", "1234567", ".", "890", "e", "-", "2", ""))
  {
    var s := "-1234567.890e-2";
    assert s[0..0] == "" && s[0..1] == "-" && s[8..9] == ".";
    assert s[1..8] == "1234567" by { assert |s[1..8]| == 7; }
    assert s[9..12] == "890" by { assert |s[9..12]| == 3; }
    assert s[12..13] == "e" && s[13..14] == "-" && s[14..15] == "2" && s[15..] == "";
  }

  lemma NextDigit(s: string, v: nat, t: string)
    requires Digits(s) && Value(s) == v && |t| == |s| + 1 && t[..|s|] == s && IsDigit(t[|s|])
    ensures Digits(t) && Value(t) == 10 * v + Digit(t[|s|])
  {
    forall k | 0 <= k < |t|
      ensures IsDigit(t[k])
    {
      if k < |s| { assert t[k] == t[..|s|][k]; }
    }
  }

  lemma DigitValues()
    ensures Digits("1234567890") && Value("1234567890") == 1234567890
  {
    OneDigit('1');
    hide Value;
    NextDigit("1", 1, "12");
    NextDigit("12", 12, "123");
    NextDigit("123", 123, "1234");
    NextDigit("1234", 1234, "12345");
    NextDigit("12345", 12345, "123456");
    NextDigit("123456", 123456, "1234567");
    NextDigit("1234567", 1234567, "12345678");
    NextDigit("12345678", 12345678, "123456789");
    NextDigit("123456789", 123456789, "1234567890");
  }

  lemma FiveTens()
    ensures Ten(5) == 100000.0
  {
    assert Ten(1) == 10.0;
    assert Ten(2) == 100.0;
    assert Ten(3) == 1000.0;
    assert Ten(4) == 10000.0;
  }

  /** A numeral of nothing but digits. */
  lemma ParsesDigits(s: string)
    requires s != "" && Digits(s)
    ensures var n := Parse(s); n.whole == s && n.fraction == "" && n.exponent == "" && !n.negative && !n.expNegative
  {
    var w := Written("", "", s, "", "", "", "", "", "");
    assert Spells(s, w);
    ParsesWritten(s, w);
  }

  /** The nineteenth digit is lost. */
  lemma NineteenDigits()
    ensures var n := Parse("1000000000000000001");
      Scanned(n) && ExponentFits(n) && Magnitude(n) != Denoted(n)
  {
    var s := "1000000000000000001";
    ParsesDigits(s);
    var n := Parse(s);
    assert AllDigits(n) == s && Used(n) == 18;
    assert s[18..] == "1";
    OneDigit('1');
    NoValue();
    ExactIff(n);
  }

  /** The exponent is clamped. */
  lemma SixHundred()
    ensures var n := Parse("1e600");
      Scanned(n) && ExponentFits(n) && Magnitude(n) != Denoted(n)
  {
    var s := "1e600";
    var w := Written("", "", "1", "", "", "e", "", "600", "");
    assert Spells(s, w);
    ParsesWritten(s, w);
    var n := Parse(s);
    OneDigit('1');
    OneDigit('6');
    assert "60"[..1] == "6" && "600"[..2] == "60";
    assert Value("60") == 60 && Value("600") == 600;
    assert AllDigits(n) == "1" && AllDigits(n)[..1] == "1";
    ExactIff(n);
  }
}
