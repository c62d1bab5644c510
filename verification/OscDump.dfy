/** The walk of `dumpOSCbndl` over a bundle and the bundles inside it. */
module OscDump {
  import opened Wrappers
  import opened Osc

  const SLASH_STATUS: Bytes := [47, 115, 116, 97, 116, 117, 115] // "/status"
  const STATUS: Bytes := [115, 116, 97, 116, 117, 115]           // "status"

  /** The bytes spell the text. */
  predicate Spells(b: Bytes, text: string) {
    |b| == |text| && forall i :: 0 <= i < |b| ==> b[i] == text[i] as int
  }

  lemma Spelling()
    ensures Spells(BUNDLE, "#bundle") && Spells(SLASH_STATUS, "/status") && Spells(STATUS, "status")
    ensures Spells([TAG_COMMA, TAG_I, TAG_S, TAG_B], ",isb")
  {
  }

  /** What the dump makes of an element: a message to show, a status message to skip, or a bundle with a time
      and elements of its own. None stands for bytes that the walk would run out of. */
  datatype Seen = Shown(body: Bytes) | Skipped | Inner(bundle: Option<SeenBundle>)

  datatype SeenBundle = SeenBundle(time: nat, elements: seq<Seen>)

  /** OSCtime, unsigned as it is printed. */
  function OSCtime(b: Bytes, p: nat): (t: nat)
    requires p + 8 <= |b|
    ensures t < WORD * WORD
  {
    Word(b[p], b[p + 1], b[p + 2], b[p + 3]) * WORD + Word(b[p + 4], b[p + 5], b[p + 6], b[p + 7])
  }

  /** Any eight bytes are the bytes of the time they read as. */
  lemma TimeRoundTrip(b: Bytes, p: nat)
    requires p + 8 <= |b|
    ensures BE64(OSCtime(b, p)) == b[p..p + 8]
  {
    BytesRoundTrip(b, p);
    BytesRoundTrip(b, p + 4);
    WordRead(b, p);
    WordRead(b, p + 4);
    var high, low := Word(b[p], b[p + 1], b[p + 2], b[p + 3]), Word(b[p + 4], b[p + 5], b[p + 6], b[p + 7]);
    var t := OSCtime(b, p);
    assert t == high * WORD + low;
    hide BE32, OSCint, OSCtime, Word;
    Halves(high, low);
    SameWord(t / WORD, OSCint(b, p));
    SameWord(t, OSCint(b, p + 4));
    assert b[p..p + 4] + b[p + 4..p + 8] == b[p..p + 8];
  }

  lemma Halves(high: nat, low: nat)
    requires low < WORD
    ensures (high * WORD + low) / WORD == high && (high * WORD + low) % WORD == low
  {
  }

  /** Where the C string at the front ends, if it does. */
  function NameEnd(b: Bytes, k: nat): (n: nat)
    requires k <= |b|
    ensures k <= n <= |b| && (n < |b| ==> b[n] == 0)
    ensures forall i :: k <= i < n ==> b[i] != 0
    decreases |b| - k
  {
    if k == |b| || b[k] == 0 then k else NameEnd(b, k + 1)
  }

  function Look(body: Bytes): Option<Seen>
    decreases |body|, 2
  {
    var n := NameEnd(body, 0);
    if n == |body| then None
    else if body[..n] == BUNDLE then Some(Inner(Walked(body)))
    else if body[..n] == SLASH_STATUS || body[..n] == STATUS then Some(Skipped)
    else Some(Shown(body))
  }

  function Walked(data: Bytes): Option<SeenBundle>
    decreases |data|, 1
  {
    if |data| < 16 then None
    else
      match WalkedFrom(data, 16)
      case None => None
      case Some(elements) => Some(SeenBundle(OSCtime(data, 8), elements))
  }

  function WalkedFrom(data: Bytes, pos: nat): Option<seq<Seen>>
    requires pos <= |data|
    decreases |data|, 0, |data| - pos
  {
    if pos == |data| then Some([])
    else if pos + 4 > |data| then None
    else
      var size := OSCint(data, pos);
      if size < 0 || pos + 4 + size > |data| then None
      else
        match Look(data[pos + 4..pos + 4 + size])
        case None => None
        case Some(one) =>
          match WalkedFrom(data, pos + 4 + size)
          case None => None
          case Some(rest) => Some([one] + rest)
  }

  function Prepend(seen: seq<Seen>, rest: Option<seq<Seen>>): Option<seq<Seen>> {
    match rest
    case None => None
    case Some(r) => Some(seen + r)
  }

  /** The loop of `dumpOSCbndl`: past "#bundle" and the time tag, then a size and an element at a time, until
      the end of the packet. */
  method WalkBundle(data: Bytes) returns (seen: Option<SeenBundle>)
    ensures seen == Walked(data)
    decreases |data|, 0
  {
    hide Look, WalkedFrom;
    if |data| < 16 { return None; }
    var time := OSCtime(data, 8);
    var pos, elements := 16, [];
    FirstStep(data);
    while pos < |data|
      invariant 16 <= pos <= |data|
      invariant WalkedFrom(data, 16) == Prepend(elements, WalkedFrom(data, pos))
      decreases |data| - pos
    {
      OneStep(data, pos, elements);
      if pos + 4 > |data| { return None; }
      var msgSize := OSCint(data, pos);
      if msgSize < 0 || pos + 4 + msgSize > |data| { return None; }
      pos := pos + 4;
      var one := LookAt(data[pos..pos + msgSize]);
      if one.None? { return None; }
      elements := elements + [one.value];
      pos := pos + msgSize;
    }
    NoStep(data, elements);
    return Some(SeenBundle(time, elements));
  }

  lemma FirstStep(data: Bytes)
    requires |data| >= 16
    ensures WalkedFrom(data, 16) == Prepend([], WalkedFrom(data, 16))
  {
    hide WalkedFrom;
    var rest := WalkedFrom(data, 16);
    if rest.Some? { assert [] + rest.value == rest.value; }
  }

  lemma OneStep(data: Bytes, pos: nat, elements: seq<Seen>)
    requires pos < |data|
    ensures pos + 4 > |data| ==> WalkedFrom(data, pos).None?
    ensures pos + 4 <= |data| ==>
      var size := OSCint(data, pos);
      if size < 0 || pos + 4 + size > |data| then WalkedFrom(data, pos).None?
      else
        var one := Look(data[pos + 4..pos + 4 + size]);
        Prepend(elements, WalkedFrom(data, pos)) ==
          if one.None? then None else Prepend(elements + [one.value], WalkedFrom(data, pos + 4 + size))
  {
    hide Look, OSCint;
    if pos + 4 <= |data| {
      var size := OSCint(data, pos);
      if 0 <= size && pos + 4 + size <= |data| {
        var one, rest := Look(data[pos + 4..pos + 4 + size]), WalkedFrom(data, pos + 4 + size);
        if one.Some? && rest.Some? {
          assert elements + ([one.value] + rest.value) == elements + [one.value] + rest.value;
        }
      }
    }
  }

  lemma NoStep(data: Bytes, elements: seq<Seen>)
    ensures Prepend(elements, WalkedFrom(data, |data|)) == Some(elements)
  {
    assert elements + [] == elements;
  }

  /** The strcmp tests on an element: dumpOSCbndl's for another bundle, which it walks, and dumpOSCmsg's for a
      status message. */
  method LookAt(body: Bytes) returns (r: Option<Seen>)
    ensures r == Look(body)
    decreases |body|, 1
  {
    var n := 0;
    while n < |body| && body[n] != 0
      invariant 0 <= n <= |body| && NameEnd(body, 0) == NameEnd(body, n)
    {
      n := n + 1;
    }
    if n == |body| { return None; }
    if body[..n] == BUNDLE {
      var inner := WalkBundle(body);
      return Some(Inner(inner));
    }
    if body[..n] == SLASH_STATUS || body[..n] == STATUS { return Some(Skipped); }
    return Some(Shown(body));
  }

  // ---------- packets ----------

  /** The content of a packet: a message, or a bundle of packets. */
  datatype Packet = Single(message: Message) | Many(time: nat, elements: seq<Packet>)

  /** The sizes of section "OSC Bundles", for every nesting. */
  ghost predicate EncodesPacket(b: Bytes, p: Packet)
    decreases p
  {
    match p
    case Single(m) => MessageOk(m) && EncodesMessage(b, m)
    case Many(time, elements) => time < WORD * WORD && exists bodies :: EncodesBundle(b, time, bodies, elements)
  }

  ghost predicate EncodesBundle(b: Bytes, time: nat, bodies: seq<Bytes>, elements: seq<Packet>)
    decreases elements
  {
    && b == Bundle(time, bodies) && |bodies| == |elements|
    && forall i :: 0 <= i < |elements| ==> EncodesPacket(bodies[i], elements[i])
  }

  /** The messages that the dump shows as what they are. */
  predicate Showable(m: Message) {
    m.address != BUNDLE && m.address != SLASH_STATUS && m.address != STATUS
  }

  /** The dump of a packet: the same tree, with the status messages left out of sight, and of a message whose
      address is "#bundle" whatever its bytes look like as a bundle. */
  ghost predicate Shows(s: Seen, p: Packet)
    decreases p
  {
    match p
    case Single(m) =>
      if m.address == BUNDLE then s.Inner?
      else if Showable(m) then s.Shown? && MessageOk(m) && EncodesMessage(s.body, m)
      else s == Skipped
    case Many(time, elements) =>
      s.Inner? && s.bundle.Some? && s.bundle.value.time == time && ShowsAll(s.bundle.value.elements, elements)
  }

  ghost predicate ShowsAll(seen: seq<Seen>, elements: seq<Packet>)
    decreases elements
  {
    |seen| == |elements| && forall i :: 0 <= i < |seen| ==> Shows(seen[i], elements[i])
  }

  /** The dump shows every packet that is laid out as one, at every depth of nesting. */
  lemma {:induction false} DumpShows(b: Bytes, p: Packet)
    requires EncodesPacket(b, p) && |b| < 0x8000_0000
    ensures Look(b).Some? && Shows(Look(b).value, p)
    decreases p
  {
    match p
    case Single(m) => NameOfMessage(b, m);
    case Many(time, elements) =>
      var bodies :| EncodesBundle(b, time, bodies, elements);
      NameOfBundle(b, time, bodies);
      BundleShows(b, time, bodies, elements);
  }

  lemma {:induction false} BundleShows(b: Bytes, time: nat, bodies: seq<Bytes>, elements: seq<Packet>)
    requires EncodesBundle(b, time, bodies, elements) && time < WORD * WORD && |b| < 0x8000_0000
    ensures Walked(b).Some? && Walked(b).value.time == time && ShowsAll(Walked(b).value.elements, elements)
    decreases elements, |bodies| + 1
  {
    hide EncodesPacket, Shows, Bundle, WalkedFrom;
    NameOfBundle(b, time, bodies);
    ElementsShown(b, 16, bodies, elements, 0);
    assert elements[0..] == elements;
  }

  /** Times are taken modulo 2^64. */
  lemma TimeWraps(time: int)
    ensures BE64(time) == BE64(time % (WORD * WORD))
  {
    var t := time % (WORD * WORD);
    var k := time / (WORD * WORD);
    assert time == t + k * WORD * WORD;
    assert time / WORD == t / WORD + k * WORD;
    assert time / WORD % WORD == t / WORD % WORD;
    assert time % WORD == t % WORD;
  }

  /** The walk from the k-th element on. */
  lemma {:induction false} ElementsShown(data: Bytes, pos: nat, bodies: seq<Bytes>, elements: seq<Packet>, k: nat)
    requires pos <= |data| < 0x8000_0000 && k <= |bodies| == |elements|
    requires data[pos..] == Elements(bodies[k..])
    requires forall i :: 0 <= i < |elements| ==> EncodesPacket(bodies[i], elements[i])
    ensures WalkedFrom(data, pos).Some? && ShowsAll(WalkedFrom(data, pos).value, elements[k..])
    decreases elements, |bodies| - k
  {
    hide EncodesPacket, Shows, Look, WalkedFrom, OSCint, BE32;
    if pos < |data| {
      NextElement(data, pos, bodies, k);
      DumpShows(bodies[k], elements[k]);
      ElementsShown(data, pos + 4 + |bodies[k]|, bodies, elements, k + 1);
      OneStep(data, pos, []);
      var seen := WalkedFrom(data, pos).value;
      assert [] + seen == seen;
      assert elements[k..] == [elements[k]] + elements[k + 1..];
    } else {
      NoStep(data, []);
      NoMore(bodies[k..]);
    }
  }

  lemma NoMore(bodies: seq<Bytes>)
    requires Elements(bodies) == []
    ensures bodies == []
  {
  }

  lemma NextElement(data: Bytes, pos: nat, bodies: seq<Bytes>, k: nat)
    requires k <= |bodies| && pos < |data| < 0x8000_0000 && data[pos..] == Elements(bodies[k..])
    ensures k < |bodies| && pos + 4 + |bodies[k]| <= |data| && OSCint(data, pos) == |bodies[k]|
    ensures data[pos + 4..pos + 4 + |bodies[k]|] == bodies[k]
    ensures data[pos + 4 + |bodies[k]|..] == Elements(bodies[k + 1..])
  {
    hide BE32;
    var left, tail := bodies[k..], data[pos..];
    assert left != [] && left[0] == bodies[k] && left[1..] == bodies[k + 1..];
    var n := |bodies[k]|;
    assert tail == BE32(n) + bodies[k] + Elements(left[1..]);
    assert data[pos..pos + 4] == tail[..4] == BE32(n);
    Int32RoundTrip(data, pos, n);
    assert data[pos + 4..pos + 4 + n] == tail[4..4 + n] == bodies[k];
    assert data[pos + 4 + n..] == tail[4 + n..] == Elements(left[1..]);
  }

  lemma {:induction false} NameIs(b: Bytes, s: Bytes, k: nat)
    requires NoZero(s) && OscString(s) <= b && k <= |s|
    ensures NameEnd(b, k) == |s| < |b| && b[..|s|] == s
    decreases |s| - k
  {
    hide OscString;
    var t := OscString(s);
    assert forall i :: 0 <= i < |t| ==> b[i] == t[i];
    assert forall i :: 0 <= i < |s| ==> t[i] == t[..|s|][i];
    if k < |s| { NameIs(b, s, k + 1); }
  }

  lemma NameOfMessage(b: Bytes, m: Message)
    requires MessageOk(m) && EncodesMessage(b, m)
    ensures NameEnd(b, 0) == |m.address| < |b| && b[..|m.address|] == m.address
  {
    hide OscString, EncodesArgs;
    NameIs(b, m.address, 0);
  }

  lemma NameOfBundle(b: Bytes, time: nat, bodies: seq<Bytes>)
    requires b == Bundle(time, bodies) && time < WORD * WORD
    ensures NameEnd(b, 0) == 7 && |b| >= 16 && b[..7] == BUNDLE
    ensures OSCtime(b, 8) == time && b[16..] == Elements(bodies) && bodies[0..] == bodies
  {
    hide BE32, Elements;
    var head := OscString(BUNDLE);
    assert |head| == 8;
    NameIs(b, BUNDLE, 0);
    var t := BE64(time);
    assert forall i :: 0 <= i < 8 ==> b[8 + i] == t[i];
    BE32Value(time / WORD);
    BE32Value(time);
    var hi, lo := BE32(time / WORD), BE32(time);
    assert t[0] == hi[0] && t[1] == hi[1] && t[2] == hi[2] && t[3] == hi[3];
    assert t[4] == lo[0] && t[5] == lo[1] && t[6] == lo[2] && t[7] == lo[3];
    assert time / WORD % WORD == time / WORD;
  }
}
