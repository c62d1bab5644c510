/** Byte formats of the Open Sound Control 1.0 Specification: section "Atomic Data Types" (int32,
    OSC-string, OSC-blob), section "OSC Type Tag String" and section "OSC Bundles". */
module Osc {

  type Byte = b: int | 0 <= b < 256

  type Bytes = seq<Byte>

  const WORD := 0x1_0000_0000

  predicate IsInt32(i: int) {
    -0x8000_0000 <= i < 0x8000_0000
  }

  /** The big-endian bytes of a value's low 32 bits, as sc_htonl lays them out. */
  function BE32(w: int): (b: Bytes)
    ensures |b| == 4
  {
    var u := w % WORD;
    [u / 0x100_0000, u / 0x1_0000 % 0x100, u / 0x100 % 0x100, u % 0x100]
  }

  function Word(b0: int, b1: int, b2: int, b3: int): int {
    b0 * 0x100_0000 + b1 * 0x1_0000 + b2 * 0x100 + b3
  }

  /** OSCint: the four bytes at p as a signed integer. */
  function OSCint(b: Bytes, p: nat): (i: int)
    requires p + 4 <= |b|
    ensures IsInt32(i)
  {
    var u := Word(b[p], b[p + 1], b[p + 2], b[p + 3]);
    if u < 0x8000_0000 then u else u - WORD
  }

  lemma BE32Value(w: int)
    ensures var b := BE32(w); Word(b[0], b[1], b[2], b[3]) == w % WORD
  {
    var u := w % WORD;
    assert u / 0x1_0000 == u / 0x100_0000 * 0x100 + u / 0x1_0000 % 0x100 by { Nested(u, 0x1_0000); }
    assert u / 0x100 == u / 0x1_0000 * 0x100 + u / 0x100 % 0x100 by { Nested(u, 0x100); }
  }

  /** b comes before c in the dictionary. */
  predicate Before(b: Bytes, c: Bytes)
    requires |b| == |c|
  {
    exists i :: 0 <= i < |b| && b[i] < c[i] && forall j :: 0 <= j < i ==> b[j] == c[j]
  }

  /** Big-endian: the bytes of a smaller word come first in the dictionary; only one function from 32-bit words
      to four bytes does that. A negative number has the bytes of the word 2^32 above it. */
  lemma BE32Order(u: nat, v: nat)
    requires u < v < WORD
    ensures Before(BE32(u), BE32(v))
    ensures BE32(u - WORD) == BE32(u)
  {
    assert (u - WORD) % WORD == u % WORD;
    BE32Value(u);
    BE32Value(v);
    var b, c := BE32(u), BE32(v);
    hide BE32;
    if b[0] == c[0] {
      if b[1] == c[1] {
        if b[2] == c[2] { assert b[3] < c[3]; }
      }
    }
    assert b[0] < c[0] || (b[0] == c[0] && b[1] < c[1]) || (b[0] == c[0] && b[1] == c[1] && b[2] < c[2])
        || (b[0] == c[0] && b[1] == c[1] && b[2] == c[2] && b[3] < c[3]);
  }

  /** Any four bytes are the bytes of the int32 they read as. */
  lemma BytesRoundTrip(b: Bytes, p: nat)
    requires p + 4 <= |b|
    ensures BE32(OSCint(b, p)) == b[p..p + 4]
  {
    WordRead(b, p);
    WordDigits(b[p], b[p + 1], b[p + 2], b[p + 3]);
    hide Word;
  }

  lemma WordRead(b: Bytes, p: nat)
    requires p + 4 <= |b|
    ensures var u := Word(b[p], b[p + 1], b[p + 2], b[p + 3]); 0 <= u < WORD && OSCint(b, p) % WORD == u
  {
    var u := Word(b[p], b[p + 1], b[p + 2], b[p + 3]);
    if u >= 0x8000_0000 { assert (u - WORD) % WORD == u % WORD; }
  }

  lemma WordDigits(b0: Byte, b1: Byte, b2: Byte, b3: Byte)
    ensures var u := Word(b0, b1, b2, b3);
      u / 0x100_0000 == b0 && u / 0x1_0000 % 0x100 == b1 && u / 0x100 % 0x100 == b2 && u % 0x100 == b3
  {
    var u := Word(b0, b1, b2, b3);
    LastDigit((b0 * 0x100 + b1) * 0x100 + b2, b3);
    LastDigit(b0 * 0x100 + b1, b2);
    LastDigit(b0, b1);
    assert u / 0x1_0000 == u / 0x100 / 0x100 by { Quotient(u, 0x100); }
    assert u / 0x100_0000 == u / 0x1_0000 / 0x100 by { Quotient(u, 0x1_0000); }
  }

  lemma LastDigit(q: nat, r: Byte)
    ensures (q * 0x100 + r) / 0x100 == q && (q * 0x100 + r) % 0x100 == r
  {
  }

  lemma Quotient(u: nat, d: nat)
    requires d == 0x100 || d == 0x1_0000
    ensures u / (d * 0x100) == u / d / 0x100
  {
  }

  lemma Nested(u: nat, d: nat)
    requires d == 0x100 || d == 0x1_0000
    ensures u / d == u / (d * 0x100) * 0x100 + u / d % 0x100
  {
  }

  /** An int32 written big-endian reads back the same. */
  lemma Int32RoundTrip(b: Bytes, p: nat, i: int)
    requires IsInt32(i) && p + 4 <= |b| && b[p..p + 4] == BE32(i)
    ensures OSCint(b, p) == i
  {
    BE32Value(i);
    var w := b[p..p + 4];
    assert w[0] == b[p] && w[1] == b[p + 1] && w[2] == b[p + 2] && w[3] == b[p + 3];
    if i >= 0 { assert i % WORD == i; } else { assert i % WORD == i + WORD; }
  }

  function Zeros(n: nat): Bytes {
    seq(n, _ => 0)
  }

  /** A C string's characters. */
  predicate NoZero(s: Bytes) {
    forall i :: 0 <= i < |s| ==> s[i] != 0
  }

  /** OSC-string: the characters, a terminating NUL, and NULs up to a multiple of four bytes. */
  function OscString(s: Bytes): (b: Bytes)
    ensures |b| % 4 == 0 && |s| < |b| <= |s| + 4 && b[..|s|] == s
    ensures forall i :: |s| <= i < |b| ==> b[i] == 0
  {
    s + Zeros(4 - |s| % 4)
  }

  lemma StringLength(s: Bytes)
    ensures |OscString(s)| == (|s| + 4) / 4 * 4
  {
  }

  /** Bytes that hold the characters and then only NULs are the padded string. */
  lemma StringBytes(b: Bytes, s: Bytes)
    requires |b| == (|s| + 4) / 4 * 4 && |s| <= |b| && b[..|s|] == s && forall i :: |s| <= i < |b| ==> b[i] == 0
    ensures b == OscString(s)
  {
    StringLength(s);
    var t := OscString(s);
    hide OscString;
    forall i | 0 <= i < |b|
      ensures b[i] == t[i]
    {
      if i < |s| { assert b[i] == b[..|s|][i] && t[i] == t[..|s|][i]; }
    }
  }

  // ---------- arguments ----------

  datatype Arg = I(i: int) | S(s: Bytes) | B(b: Bytes)

  predicate ArgOk(a: Arg) {
    match a
    case I(i) => IsInt32(i)
    case S(s) => NoZero(s)
    case B(b) => 1 <= |b| < 0x8000_0000
  }

  const TAG_COMMA: Byte := 44 // ','
  const TAG_I: Byte := 105    // 'i'
  const TAG_S: Byte := 115    // 's'
  const TAG_B: Byte := 98     // 'b'

  function TagOf(a: Arg): Byte {
    match a
    case I(_) => TAG_I
    case S(_) => TAG_S
    case B(_) => TAG_B
  }

  function TagsOf(args: seq<Arg>): (t: Bytes)
    ensures |t| == |args|
    ensures forall i :: 0 <= i < |t| ==> t[i] == TagOf(args[i])
  {
    seq(|args|, i requires 0 <= i < |args| => TagOf(args[i]))
  }

  /** Length of a blob's data rounded up to words. */
  function Round4(n: nat): nat {
    (n + 3) / 4 * 4
  }

  /** The bytes of one argument. A blob's pad bytes may hold anything. */
  predicate EncodesArg(b: Bytes, a: Arg) {
    match a
    case I(i) => b == BE32(i)
    case S(s) => b == OscString(s)
    case B(d) => |b| == 4 + Round4(|d|) && b[..4] == BE32(|d|) && b[4..4 + |d|] == d
  }

  function ArgSize(a: Arg): nat {
    match a
    case I(_) => 4
    case S(s) => |OscString(s)|
    case B(d) => 4 + Round4(|d|)
  }

  predicate EncodesArgs(b: Bytes, args: seq<Arg>) {
    if args == [] then b == []
    else
      var n := ArgSize(args[0]);
      n <= |b| && EncodesArg(b[..n], args[0]) && EncodesArgs(b[n..], args[1..])
  }

  lemma ArgLength(b: Bytes, a: Arg)
    requires EncodesArg(b, a)
    ensures |b| == ArgSize(a)
  {
  }

  lemma {:induction false} AppendArg(b: Bytes, args: seq<Arg>, c: Bytes, a: Arg)
    requires EncodesArgs(b, args) && EncodesArg(c, a)
    ensures EncodesArgs(b + c, args + [a])
  {
    hide EncodesArg, ArgSize;
    ArgLength(c, a);
    if args == [] {
      assert args + [a] == [a];
      assert b + c == c && |c| == ArgSize(a) && c[..|c|] == c && c[|c|..] == [];
    } else {
      var n := ArgSize(args[0]);
      AppendArg(b[n..], args[1..], c, a);
      assert (args + [a])[1..] == args[1..] + [a];
      assert (b + c)[..n] == b[..n] && (b + c)[n..] == b[n..] + c;
    }
  }

  lemma {:induction false} ArgsAligned(b: Bytes, args: seq<Arg>)
    requires EncodesArgs(b, args)
    ensures |b| % 4 == 0
  {
    hide EncodesArg, ArgSize;
    if args != [] {
      SizeAligned(args[0]);
      ArgsAligned(b[ArgSize(args[0])..], args[1..]);
    }
  }

  lemma SizeAligned(a: Arg)
    ensures ArgSize(a) % 4 == 0
  {
  }

  // ---------- messages and bundles ----------

  datatype Message = Message(address: Bytes, args: seq<Arg>)

  predicate MessageOk(m: Message) {
    NoZero(m.address) && m.address != [] && forall i :: 0 <= i < |m.args| ==> ArgOk(m.args[i])
  }

  /** Address, type tag string, arguments. */
  predicate EncodesMessage(b: Bytes, m: Message) {
    var head := OscString(m.address) + OscString([TAG_COMMA] + TagsOf(m.args));
    head <= b && EncodesArgs(b[|head|..], m.args)
  }

  const BUNDLE: Bytes := [35, 98, 117, 110, 100, 108, 101] // "#bundle"

  /** The two words of a 64-bit time tag. */
  function BE64(t: int): Bytes {
    BE32(t / WORD) + BE32(t)
  }

  /** The same order for 64-bit words. */
  lemma BE64Order(u: nat, v: nat)
    requires u < v < WORD * WORD
    ensures Before(BE64(u), BE64(v))
  {
    SameWord(u, u % WORD);
    SameWord(v, v % WORD);
    if u / WORD < v / WORD { BE32Order(u / WORD, v / WORD); } else { BE32Order(u % WORD, v % WORD); }
    hide BE32, Before;
    BeforeAppend(BE32(u / WORD), BE32(v / WORD), BE32(u), BE32(v));
  }

  lemma SameWord(x: int, y: int)
    requires x % WORD == y % WORD
    ensures BE32(x) == BE32(y)
  {
  }

  lemma BeforeAppend(b: Bytes, c: Bytes, d: Bytes, e: Bytes)
    requires |b| == |c| && |d| == |e|
    ensures Before(b, c) || (b == c && Before(d, e)) ==> Before(b + d, c + e)
  {
    if Before(b, c) {
      var i :| 0 <= i < |b| && b[i] < c[i] && forall j :: 0 <= j < i ==> b[j] == c[j];
      assert (b + d)[i] < (c + e)[i];
    } else if b == c && Before(d, e) {
      var i :| 0 <= i < |d| && d[i] < e[i] && forall j :: 0 <= j < i ==> d[j] == e[j];
      assert (b + d)[|b| + i] < (c + e)[|b| + i];
    }
  }

  /** The elements of a bundle: each body is preceded by its size. */
  function Elements(bodies: seq<Bytes>): Bytes {
    if bodies == [] then [] else BE32(|bodies[0]|) + bodies[0] + Elements(bodies[1..])
  }

  function Bundle(time: int, bodies: seq<Bytes>): Bytes {
    OscString(BUNDLE) + BE64(time) + Elements(bodies)
  }

  lemma {:induction false} ElementsAppend(bodies: seq<Bytes>, body: Bytes)
    ensures Elements(bodies + [body]) == Elements(bodies) + BE32(|body|) + body
  {
    if bodies == [] {
      assert bodies + [body] == [body];
      assert [body][1..] == [];
      assert Elements([body]) == BE32(|body|) + body + [];
    } else {
      ElementsAppend(bodies[1..], body);
      assert (bodies + [body])[1..] == bodies[1..] + [body];
    }
  }
}
