/** Whole messages and bundles: what a client writes with `scpacket`, and what the dump and the argument
    iterator `sc_msg_iter` make of it. */
module OscTraffic {
  import opened Wrappers
  import opened Osc
  import opened OscDump
  import opened ScPackets

  // ---------- writing ----------

  function ArgsSize(args: seq<Arg>): nat {
    if args == [] then 0 else ArgsSize(args[..|args| - 1]) + ArgSize(args[|args| - 1])
  }

  function MessageSize(m: Message): nat {
    |OscString(m.address)| + |OscString([TAG_COMMA] + TagsOf(m.args))| + ArgsSize(m.args)
  }

  lemma {:induction false} PrefixFits(args: seq<Arg>, k: nat)
    requires k <= |args|
    ensures ArgsSize(args[..k]) <= ArgsSize(args)
    decreases |args|
  {
    if k < |args| {
      assert args[..|args| - 1][..k] == args[..k];
      PrefixFits(args[..|args| - 1], k);
    } else {
      assert args[..k] == args;
    }
  }

  /** Writes one argument by the packet method for its type. */
  method WriteArg(p: ScPacket, a: Arg) returns (ok: bool)
    requires p.Valid() && ArgOk(a)
    modifies p`wrpos, p.buf
    ensures p.Valid() && (ok <==> 4 * old(p.wrpos) + ArgSize(a) <= 4 * p.endpos)
    ensures ok ==> |p.Written()| == |old(p.Written())| + ArgSize(a) && old(p.Written()) <= p.Written()
    ensures ok ==> EncodesArg(p.Written()[|old(p.Written())|..], a)
  {
    match a
    case I(i) => ok := p.AddI(i);
    case S(s) => ok := p.AddS(s);
    case B(b) => ok := p.AddB(b);
  }

  /** What a client calls between maketags and the end of a message, in any order. */
  datatype Call = AddTag(tag: Byte) | AddArg(arg: Arg)

  function TagsIn(calls: seq<Call>): Bytes {
    if calls == [] then []
    else
      var c := calls[|calls| - 1];
      TagsIn(calls[..|calls| - 1]) + (if c.AddTag? then [c.tag] else [])
  }

  function ArgsIn(calls: seq<Call>): seq<Arg> {
    if calls == [] then []
    else
      var c := calls[|calls| - 1];
      ArgsIn(calls[..|calls| - 1]) + (if c.AddArg? then [c.arg] else [])
  }

  /** The bytes that maketags sets aside. */
  function TagRoom(announced: nat): nat {
    (announced + 4) / 4 * 4
  }

  lemma {:induction false} CallPrefix(calls: seq<Call>, k: nat)
    requires k <= |calls|
    ensures TagsIn(calls[..k]) <= TagsIn(calls) && ArgsIn(calls[..k]) <= ArgsIn(calls)
    decreases |calls|
  {
    if k < |calls| {
      assert calls[..|calls| - 1][..k] == calls[..k];
      CallPrefix(calls[..|calls| - 1], k);
    } else {
      assert calls[..k] == calls;
    }
  }

  lemma CallNext(calls: seq<Call>, k: nat)
    requires k < |calls|
    ensures match calls[k]
      case AddTag(tag) =>
        TagsIn(calls[..k + 1]) == TagsIn(calls[..k]) + [tag] && ArgsIn(calls[..k + 1]) == ArgsIn(calls[..k])
      case AddArg(arg) =>
        TagsIn(calls[..k + 1]) == TagsIn(calls[..k]) && ArgsIn(calls[..k + 1]) == ArgsIn(calls[..k]) + [arg]
    ensures TagsIn(calls[..k + 1]) <= TagsIn(calls) && ArgsSize(ArgsIn(calls[..k + 1])) <= ArgsSize(ArgsIn(calls))
  {
    assert calls[..k + 1][..k] == calls[..k];
    CallPrefix(calls, k + 1);
    var some, all := ArgsIn(calls[..k + 1]), ArgsIn(calls);
    assert some == all[..|some|];
    PrefixFits(all, |some|);
  }

  lemma NoCalls()
    ensures TagsIn([]) == [] && ArgsIn([]) == [] && EncodesArgs([], []) && ArgsSize([]) == 0
  {
  }

  /** maketags, then addtag calls and argument writes in any order, over a buffer that holds anything. The
      tags and the arguments end up where they belong; the tag area is the padded tag string if and only
      if the announced number of tags and the number written need equally many words. */
  method WriteCalls(p: ScPacket, announced: nat, calls: seq<Call>)
    returns (ok: bool, ghost area: Bytes, ghost rest: Bytes)
    requires p.Valid() && |TagsIn(calls)| <= announced
    requires forall i :: 0 <= i < |calls| && calls[i].AddArg? ==> ArgOk(calls[i].arg)
    modifies p`wrpos, p`tagwrpos, p.buf
    ensures p.Valid()
    ensures ok <==> 4 * old(p.wrpos) + TagRoom(announced) + ArgsSize(ArgsIn(calls)) <= 4 * p.endpos
    ensures ok ==> p.Written() == old(p.Written()) + area + rest && |area| == TagRoom(announced)
    ensures ok ==> EncodesArgs(rest, ArgsIn(calls)) && |rest| == ArgsSize(ArgsIn(calls))
    ensures ok ==> var tags := TagsIn(calls);
      tags <= area && (area == OscString(tags) <==> |tags| / 4 == announced / 4)
  {
    hide EncodesArgs, EncodesArg, OscString, ArgSize, BE32, TagsIn, ArgsIn, ArgsSize;
    NoCalls();
    ghost var tags, before, base := TagsIn(calls), p.Written(), 4 * p.wrpos;
    area, rest := [], [];
    ok := p.MakeTags(announced);
    if !ok { return; }
    ghost var t := p.Written()[base..];
    assert p.Written() == before + t;
    assert calls[..0] == [];
    Overlaid(before, t, tags, []);
    for k := 0 to |calls|
      invariant p.Valid() && p.tagwrpos == base + |TagsIn(calls[..k])| && TagsIn(calls[..k]) <= tags
      invariant 4 * p.wrpos == base + |t| + |rest|
      invariant p.Written() == before + Overlay(t, TagsIn(calls[..k])) + rest
      invariant EncodesArgs(rest, ArgsIn(calls[..k])) && |rest| == ArgsSize(ArgsIn(calls[..k]))
    {
      CallNext(calls, k);
      ghost var done, args := TagsIn(calls[..k]), ArgsIn(calls[..k]);
      match calls[k] {
        case AddTag(tag) =>
          TagPut(before, t, done, tag, rest);
          p.AddTag(tag);
        case AddArg(arg) =>
          ghost var was := p.Written();
          ok := WriteArg(p, arg);
          SizeNext(args, arg);
          if !ok { return; }
          rest := Appended(was, p.Written(), before + Overlay(t, done), rest, args, arg);
      }
    }
    assert calls[..|calls|] == calls;
    area := Overlay(t, tags);
    TagArea(t, tags, announced);
  }

  lemma Appended(was: Bytes, now: Bytes, front: Bytes, rest: Bytes, args: seq<Arg>, a: Arg) returns (more: Bytes)
    requires was == front + rest && was <= now && EncodesArg(now[|was|..], a) && EncodesArgs(rest, args)
    requires |rest| == ArgsSize(args)
    ensures now == front + more && EncodesArgs(more, args + [a]) && |more| == ArgsSize(args + [a])
  {
    hide EncodesArgs, EncodesArg, ArgSize, ArgsSize;
    var piece := now[|was|..];
    AppendArg(rest, args, piece, a);
    ArgLength(piece, a);
    SizeNext(args, a);
    Regroup(front, rest, piece);
    more := rest + piece;
  }

  lemma SizeNext(args: seq<Arg>, a: Arg)
    ensures ArgsSize(args + [a]) == ArgsSize(args) + ArgSize(a)
  {
    assert (args + [a])[..|args|] == args;
  }

  lemma Regroup(a: Bytes, b: Bytes, c: Bytes)
    ensures a + b + c == a + (b + c)
  {
  }

  /** The tag area once the first tags have been put in it. */
  function Overlay(t: Bytes, tags: Bytes): (r: Bytes)
    requires |tags| <= |t|
    ensures |r| == |t|
  {
    tags + t[|tags|..]
  }

  lemma Overlaid(before: Bytes, t: Bytes, tags: Bytes, rest: Bytes)
    requires rest == []
    ensures before + Overlay(t, []) + rest == before + t
  {
  }

  lemma TagPut(before: Bytes, t: Bytes, done: Bytes, tag: Byte, rest: Bytes)
    requires |done| < |t|
    ensures (before + Overlay(t, done) + rest)[|before| + |done| := tag] == before + Overlay(t, done + [tag]) + rest
  {
    var x, y := before + Overlay(t, done) + rest, before + Overlay(t, done + [tag]) + rest;
    assert Overlay(t, done)[|done| := tag] == Overlay(t, done + [tag]);
  }

  /** The padding is right exactly when all words of the area but the last are full of tags. */
  lemma TagArea(t: Bytes, tags: Bytes, announced: nat)
    requires |t| == TagRoom(announced) && |tags| <= announced
    requires forall i :: |t| - 4 <= i < |t| ==> t[i] == 0
    ensures tags <= Overlay(t, tags)
    ensures Overlay(t, tags) == OscString(tags) <==> |tags| / 4 == announced / 4
  {
    StringLength(tags);
    if |tags| / 4 == announced / 4 {
      StringBytes(Overlay(t, tags), tags);
    } else {
      hide OscString;
      assert |OscString(tags)| != |t|;
    }
  }

  /** A message's calls: its tags and its arguments, each in order, with room announced for them. */
  datatype Plan = Plan(announced: nat, calls: seq<Call>)

  predicate Carries(plan: Plan, m: Message) {
    && TagsIn(plan.calls) == [TAG_COMMA] + TagsOf(m.args) && ArgsIn(plan.calls) == m.args
    && |m.args| + 1 <= plan.announced
  }

  /** The announced tags need as many words as the tags do. */
  predicate WellAnnounced(plan: Plan, m: Message) {
    plan.announced / 4 == (|m.args| + 1) / 4
  }

  /** Writes a whole message. It succeeds exactly when it fits, and what it writes is the message in the
      format of the standard if and only if the tags were announced well. */
  method WriteMessage(p: ScPacket, m: Message, plan: Plan) returns (ok: bool, ghost body: Bytes)
    requires p.Valid() && MessageOk(m) && Carries(plan, m)
    modifies p`wrpos, p`tagwrpos, p.buf
    ensures p.Valid()
    ensures ok <==> 4 * old(p.wrpos) + PlanSize(m, plan) <= 4 * p.endpos
    ensures ok ==> p.Written() == old(p.Written()) + body && |body| == PlanSize(m, plan)
    ensures ok ==> (EncodesMessage(body, m) <==> WellAnnounced(plan, m))
  {
    hide EncodesArgs, EncodesArg, EncodesMessage, OscString, ArgSize, BE32, ArgsSize, TagsIn, ArgsIn;
    ArgsNonNegative(m.args);
    body := [];
    ok := p.AddS(m.address);
    if !ok { return; }
    ghost var area: Bytes;
    ghost var rest: Bytes;
    CallsOk(plan, m);
    ok, area, rest := WriteCalls(p, plan.announced, plan.calls);
    if !ok { return; }
    body := OscString(m.address) + area + rest;
    Regroup3(old(p.Written()), OscString(m.address), area, rest);
    MessageJoined(m, area, rest);
  }

  function PlanSize(m: Message, plan: Plan): nat {
    |OscString(m.address)| + TagRoom(plan.announced) + ArgsSize(m.args)
  }

  lemma Regroup3(a: Bytes, b: Bytes, c: Bytes, d: Bytes)
    ensures a + b + c + d == a + (b + c + d)
  {
  }

  lemma {:induction false} ArgsOf(calls: seq<Call>, i: nat)
    requires i < |calls| && calls[i].AddArg?
    ensures calls[i].arg in ArgsIn(calls)
  {
    if i < |calls| - 1 { ArgsOf(calls[..|calls| - 1], i); }
  }

  lemma CallsOk(plan: Plan, m: Message)
    requires MessageOk(m) && Carries(plan, m)
    ensures forall i :: 0 <= i < |plan.calls| && plan.calls[i].AddArg? ==> ArgOk(plan.calls[i].arg)
  {
    forall i | 0 <= i < |plan.calls| && plan.calls[i].AddArg?
      ensures ArgOk(plan.calls[i].arg)
    {
      ArgsOf(plan.calls, i);
    }
  }

  lemma {:induction false} ArgsLength(b: Bytes, args: seq<Arg>)
    requires EncodesArgs(b, args)
    ensures |b| == ArgsSize(args)
  {
    if args == [] {
    } else {
      var n := ArgSize(args[0]);
      ArgsLength(b[n..], args[1..]);
      SizeFront(args);
    }
  }

  lemma {:induction false} SizeFront(args: seq<Arg>)
    requires args != []
    ensures ArgsSize(args) == ArgSize(args[0]) + ArgsSize(args[1..])
  {
    if |args| == 1 {
      assert args[..0] == [] && args[1..] == [];
    } else {
      var init := args[..|args| - 1];
      SizeFront(init);
      assert init[1..] == args[1..][..|args| - 2];
    }
  }

  lemma MessageJoined(m: Message, area: Bytes, rest: Bytes)
    requires EncodesArgs(rest, m.args) && |rest| == ArgsSize(m.args)
    ensures EncodesMessage(OscString(m.address) + area + rest, m) <==> area == OscString([TAG_COMMA] + TagsOf(m.args))
  {
    var a, t := OscString(m.address), OscString([TAG_COMMA] + TagsOf(m.args));
    var body, head := a + area + rest, a + t;
    hide OscString, EncodesArgs, ArgsSize;
    if area == t { assert body[|head|..] == rest; }
    if EncodesMessage(body, m) { HeadSplit(body, a, area, rest, t, m.args); }
  }

  lemma HeadSplit(body: Bytes, a: Bytes, area: Bytes, rest: Bytes, t: Bytes, args: seq<Arg>)
    requires body == a + area + rest && a + t <= body && EncodesArgs(body[|a + t|..], args) && |rest| == ArgsSize(args)
    ensures area == t
  {
    hide EncodesArgs, ArgsSize;
    ArgsLength(body[|a + t|..], args);
    assert |area| == |t|;
    assert body[|a|..|a + area|] == area;
    assert body[..|a + t|][|a|..] == body[|a|..|a + t|] && (a + t)[|a|..] == t;
  }

  lemma ArgsNonNegative(args: seq<Arg>)
    ensures ArgsSize(args) >= 0
  {
  }

  function BundleSize(messages: seq<Message>): nat {
    if messages == [] then 16 else BundleSize(messages[..|messages| - 1]) + 4 + MessageSize(messages[|messages| - 1])
  }

  lemma {:induction false} BundlePrefix(messages: seq<Message>, k: nat)
    requires k <= |messages|
    ensures BundleSize(messages[..k]) <= BundleSize(messages)
    decreases |messages|
  {
    if k < |messages| {
      assert messages[..|messages| - 1][..k] == messages[..k];
      BundlePrefix(messages[..|messages| - 1], k);
    } else {
      assert messages[..k] == messages;
    }
  }

  /** Every message comes with a plan that writes it. */
  predicate Planned(messages: seq<Message>, plans: seq<Plan>) {
    && |plans| == |messages|
    && forall i :: 0 <= i < |messages| ==>
         MessageOk(messages[i]) && Carries(plans[i], messages[i]) && WellAnnounced(plans[i], messages[i])
  }

  /** A whole single-level bundle: OpenBundle, BeginMsg, message and EndMsg for each message, CloseBundle.
      It succeeds exactly when the bundle fits. */
  method WriteBundle(p: ScPacket, time: int, messages: seq<Message>, plans: seq<Plan>)
    returns (ok: bool, ghost bodies: seq<Bytes>)
    requires p.Valid() && p.wrpos == 0 && p.inbundle == 0
    requires Planned(messages, plans)
    modifies p, p.buf
    ensures p.Valid() && (ok <==> BundleSize(messages) <= 4 * p.endpos)
    ensures ok ==> p.inbundle == 0 && |bodies| == |messages| && p.Written() == Bundle(time, bodies)
    ensures ok ==> forall i :: 0 <= i < |messages| ==> EncodesMessage(bodies[i], messages[i])
  {
    hide EncodesMessage, MessageSize, OscString, BE32, BE64, Bundle;
    bodies := [];
    BundlePrefix(messages, 0);
    ok := p.OpenBundle(time);
    if !ok { return; }
    EmptyBundle(time);
    assert p.Written() == Bundle(time, []);
    for i := 0 to |messages|
      invariant p.Valid() && p.inbundle == 1 && |bodies| == i && p.Written() == Bundle(time, bodies)
      invariant 4 * p.wrpos == BundleSize(messages[..i])
      invariant forall j :: 0 <= j < i ==> EncodesMessage(bodies[j], messages[j])
    {
      assert messages[..i + 1][..i] == messages[..i];
      BundlePrefix(messages, i + 1);
      ghost var body: Bytes;
      ok, body := WriteElement(p, messages[i], plans[i]);
      if !ok { return; }
      BundleAppend(time, bodies, body);
      bodies := bodies + [body];
    }
    assert messages[..|messages|] == messages;
    p.CloseBundle();
    ok := true;
  }

  lemma EmptyBundle(time: int)
    ensures Bundle(time, []) == OscString(BUNDLE) + BE64(time)
  {
    assert Elements([]) == [];
  }

  lemma BundleAppend(time: int, bodies: seq<Bytes>, body: Bytes)
    ensures Bundle(time, bodies + [body]) == Bundle(time, bodies) + (BE32(|body|) + body)
  {
    ElementsAppend(bodies, body);
  }

  /** BeginMsg, the message, EndMsg. */
  method WriteElement(p: ScPacket, m: Message, plan: Plan) returns (ok: bool, ghost body: Bytes)
    requires p.Valid() && MessageOk(m) && Carries(plan, m) && WellAnnounced(plan, m) && p.inbundle > 0
    modifies p`wrpos, p`tagwrpos, p`msgsizepos, p.buf
    ensures p.Valid() && (ok <==> 4 * old(p.wrpos) + 4 + MessageSize(m) <= 4 * p.endpos)
    ensures ok ==> p.Written() == old(p.Written()) + (BE32(|body|) + body)
    ensures ok ==> EncodesMessage(body, m) && |body| == MessageSize(m)
  {
    hide EncodesMessage, MessageSize, PlanSize, OscString, BE32, Carries, WellAnnounced;
    SizePlanned(m, plan);
    body := [];
    ok := p.BeginMsg();
    if !ok { return; }
    ok, body := WriteMessage(p, m, plan);
    if !ok { return; }
    p.EndMsg();
  }

  lemma SizePlanned(m: Message, plan: Plan)
    requires WellAnnounced(plan, m)
    ensures PlanSize(m, plan) == MessageSize(m)
  {
    StringLength([TAG_COMMA] + TagsOf(m.args));
  }

  // ---------- reading a message ----------

  /** OSCstrskip: four bytes at a time, until the byte just passed is NUL. */
  method OSCstrskip(b: Bytes, start: nat, ghost s: Bytes) returns (p: nat)
    requires NoZero(s) && start <= |b| && OscString(s) <= b[start..]
    ensures p == start + |OscString(s)|
  {
    hide OscString;
    StringLength(s);
    ghost var t := OscString(s);
    assert forall i :: 0 <= i < |t| ==> b[start + i] == b[start..][i] == t[i];
    assert forall i :: 0 <= i < |s| ==> t[i] == t[..|s|][i];
    p := start + 4;
    while b[p - 1] != 0
      invariant start + 4 <= p <= start + |t| && (p - start) % 4 == 0
      decreases |t| - p + start
    {
      p := p + 4;
    }
  }

  /** The C string at `start`. */
  method CString(b: Bytes, start: nat, ghost s: Bytes) returns (r: Bytes)
    requires NoZero(s) && start <= |b| && OscString(s) <= b[start..]
    ensures r == s
  {
    hide OscString;
    ghost var t := OscString(s);
    assert forall i :: 0 <= i < |t| ==> b[start + i] == b[start..][i] == t[i];
    assert forall i :: 0 <= i < |s| ==> t[i] == t[..|s|][i];
    r := [];
    while b[start + |r|] != 0
      invariant |r| <= |s| && r == s[..|r|]
      decreases |s| - |r|
    {
      r := r + [b[start + |r|]];
    }
  }

  /** `sc_msg_iter` over the bytes after a message's address. `todo` are the arguments still to be read. */
  class MsgIter {
    const data: Bytes
    var rdpos: nat
    var tags: nat
    var count: nat
    ghost const args: seq<Arg>

    ghost predicate Valid()
      reads this
    {
      && rdpos <= |data| && count <= |args|
      && tags + |args| + 1 <= |data|
      && (forall i :: 0 <= i < |args| ==> data[tags + i] == TagOf(args[i]) && ArgOk(args[i]))
      && data[tags + |args|] == 0
      && EncodesArgs(data[rdpos..], args[count..])
    }

    /** The tagged form of init: the tags follow the comma, the arguments follow the padded tag string. */
    constructor (inData: Bytes, ghost m: Message)
      requires MessageOk(m) && EncodesMessage(OscString(m.address) + inData, m)
      ensures Valid() && data == inData && args == m.args && count == 0
      ensures tags == 1 && rdpos == |OscString([TAG_COMMA] + TagsOf(m.args))|
    {
      data, args := inData, m.args;
      IterStart(inData, m);
      tags := 1;
      count := 0;
      var p := OSCstrskip(inData, 0, [TAG_COMMA] + TagsOf(m.args));
      rdpos := p;
      new;
      assert args[0..] == args;
    }

    /** Remain(): bytes left; none exactly when every argument has been read. */
    method Remain() returns (n: nat)
      requires Valid()
      ensures n == |data| - rdpos && (n == 0 <==> count == |args|)
    {
      n := |data| - rdpos;
      if count < |args| { ArgPositive(args[count]); }
    }

    lemma InRange()
      requires Valid()
      ensures count <= |args|
    {
    }

    method NextTag() returns (c: Byte)
      requires Valid() && count < |args|
      ensures c == TagOf(args[count])
    {
      c := data[tags + count];
    }

    /** The next argument's bytes start at rdpos. */
    lemma Here()
      requires Valid() && count < |args|
      ensures var n := ArgSize(args[count]);
        && rdpos + n <= |data| && EncodesArg(data[rdpos..rdpos + n], args[count])
        && EncodesArgs(data[rdpos + n..], args[count + 1..])
    {
      var n := ArgSize(args[count]);
      var rest := data[rdpos..];
      assert args[count..][0] == args[count] && args[count..][1..] == args[count + 1..];
      assert rest[..n] == data[rdpos..rdpos + n] && rest[n..] == data[rdpos + n..];
    }

    /** geti: an int argument's value; for a string the default, and past it; at the end the default, and no
        further. For a blob the default, and past it, but the argument is counted twice, once by skipb: from
        then on tags and arguments are out of step. */
    method GetI(defaultValue: int) returns (value: int)
      requires Valid()
      modifies this`rdpos, this`count
      ensures old(count) == |args| ==> unchanged(this) && value == defaultValue
      ensures old(count) < |args| && !args[old(count)].B? ==>
        && Valid() && count == old(count) + 1
        && value == (if args[old(count)].I? then args[old(count)].i else defaultValue)
      ensures old(count) < |args| && args[old(count)].B? ==>
        && rdpos == old(rdpos) + ArgSize(args[old(count)]) && count == old(count) + 2 && value == defaultValue
        && !Valid()
    {
      hide BE32, OscString, EncodesArgs, EncodesArg, ArgSize, ArgOk, OSCint;
      var left := Remain();
      if left == 0 { return defaultValue; }
      Here();
      var c := data[tags + count];
      if c == TAG_I {
        IntHere();
        value := OSCint(data, rdpos);
        rdpos := rdpos + 4;
      } else if c == TAG_S {
        value := defaultValue;
        StringHere();
        rdpos := OSCstrskip(data, rdpos, args[count].s);
      } else {
        value := defaultValue;
        SkipB();
        OutOfStep(count + 1);
      }
      count := count + 1;
    }

    /** A blob at rdpos: its size, its bytes, and where the next argument starts. */
    lemma BlobHere()
      requires Valid() && count < |args| && args[count].B?
      ensures var b, n := args[count].b, ArgSize(args[count]);
        && rdpos + 4 + |b| <= rdpos + n <= |data| && n == 4 + (|b| + 3) / 4 * 4
        && OSCint(data, rdpos) == |b| && data[rdpos + 4..rdpos + 4 + |b|] == b
        && EncodesArgs(data[rdpos + n..], args[count + 1..])
    {
      hide BE32, EncodesArgs;
      Here();
      BlobAt(data, rdpos, args[count].b);
    }

    /** A string at rdpos. */
    lemma StringHere()
      requires Valid() && count < |args| && args[count].S?
      ensures var s := args[count].s;
        NoZero(s) && OscString(s) <= data[rdpos..] && ArgSize(args[count]) == |OscString(s)|
    {
      hide EncodesArgs;
      Here();
      StringAt(data, rdpos, args[count].s);
    }

    /** An int at rdpos. */
    lemma IntHere()
      requires Valid() && count < |args| && args[count].I?
      ensures rdpos + 4 <= |data| && OSCint(data, rdpos) == args[count].i && ArgSize(args[count]) == 4
    {
      hide EncodesArgs, BE32;
      Here();
      Int32RoundTrip(data, rdpos, args[count].i);
    }

    /** With tags counted ahead of the arguments nothing fits any more. */
    lemma OutOfStep(later: nat)
      requires Valid() && later > count
      ensures later <= |args| ==> !EncodesArgs(data[rdpos..], args[later..])
    {
      hide EncodesArgs;
      if later <= |args| && EncodesArgs(data[rdpos..], args[later..]) {
        assert args[count..][later - count..] == args[later..];
        Shorter(data[rdpos..], data[rdpos..], args[count..], later - count);
      }
    }

    /** gets: a string argument, or null at the end. For any other argument it gives the default and counts
        the argument without moving past its bytes, so that tags and arguments are out of step. */
    method GetS(defaultValue: Option<Bytes>) returns (value: Option<Bytes>)
      requires Valid()
      modifies this`rdpos, this`count
      ensures old(count) == |args| ==> unchanged(this) && value == None
      ensures old(count) < |args| ==> count == old(count) + 1
      ensures old(count) < |args| && args[old(count)].S? ==> Valid() && value == Some(args[old(count)].s)
      ensures old(count) < |args| && !args[old(count)].S? ==>
        rdpos == old(rdpos) && value == defaultValue && !Valid()
    {
      hide BE32, OscString, EncodesArgs, EncodesArg, ArgSize, ArgOk;
      var left := Remain();
      if left == 0 { return None; }
      Here();
      if data[tags + count] == TAG_S {
        StringHere();
        var text := CString(data, rdpos, args[count].s);
        value := Some(text);
        rdpos := OSCstrskip(data, rdpos, args[count].s);
      } else {
        value := defaultValue;
        OutOfStep(count + 1);
      }
      count := count + 1;
    }

    /** getbsize: the size of a blob argument; of any other, and at the end, zero. */
    method GetBSize() returns (len: nat)
      requires Valid()
      ensures len == if count < |args| && args[count].B? then |args[count].b| else 0
    {
      hide BE32, OscString, EncodesArgs;
      var left := Remain();
      if left == 0 { return 0; }
      Here();
      if data[tags + count] != TAG_B { return 0; }
      BlobAt(data, rdpos, args[count].b);
      len := OSCint(data, rdpos);
    }

    /** skipb: past a blob's size, its bytes and its pad bytes. Any other argument, and the NUL after the last
        tag, is counted without moving. */
    method SkipB()
      requires Valid()
      modifies this`rdpos, this`count
      ensures count == old(count) + 1
      ensures if old(count) < |args| && args[old(count)].B?
        then Valid() && rdpos == old(rdpos) + ArgSize(args[old(count)])
        else rdpos == old(rdpos) && !Valid()
    {
      hide BE32, OscString, EncodesArgs, EncodesArg, OSCint, ArgSize, ArgOk;
      OutOfStep(count + 1);
      var len := 0;
      if data[tags + count] == TAG_B {
        BlobHere();
        len := OSCint(data, rdpos);
        rdpos := rdpos + 4;
      }
      var len4 := (len + 3) / 4 * 4;
      rdpos := rdpos + len4;
      count := count + 1;
    }

    /** Where getb copies from. */
    ghost function CopyFrom(): nat
      reads this
    {
      if count < |args| && args[count].B? then rdpos + 4 else rdpos
    }

    /** getb, into an array of arraySize bytes. Nothing if a blob is larger; otherwise the array is filled,
        with the blob and what comes after it, and the position moves past the pad bytes. Any other argument
        is copied from and counted without moving. What is copied must lie within the message. */
    method GetB(arraySize: nat) returns (value: Option<Bytes>)
      requires Valid()
      requires (count < |args| && args[count].B? && arraySize < |args[count].b|) || CopyFrom() + arraySize <= |data|
      modifies this`rdpos, this`count
      ensures old(count) < |args| && args[old(count)].B? ==>
        var b := args[old(count)].b;
        && Valid()
        && if arraySize < |b| then unchanged(this) && value == None
           else
             && count == old(count) + 1 && rdpos == old(rdpos) + ArgSize(args[old(count)])
             && value == Some(data[old(CopyFrom())..old(CopyFrom()) + arraySize]) && b <= value.value
      ensures !(old(count) < |args| && args[old(count)].B?) ==>
        && count == old(count) + 1 && rdpos == old(rdpos) && !Valid()
        && value == Some(data[old(CopyFrom())..old(CopyFrom()) + arraySize])
    {
      hide BE32, OscString, EncodesArgs, EncodesArg, OSCint, ArgSize, ArgOk;
      OutOfStep(count + 1);
      var len := 0;
      if data[tags + count] == TAG_B {
        BlobHere();
        len := OSCint(data, rdpos);
        if arraySize < len { return None; }
        rdpos := rdpos + 4;
      }
      var len4 := (len + 3) / 4 * 4;
      value := Some(data[rdpos..rdpos + arraySize]);
      assert data[rdpos..rdpos + len] == value.value[..len];
      rdpos := rdpos + len4;
      count := count + 1;
    }
  }

  lemma {:induction false} SameLength(b: Bytes, c: Bytes, args: seq<Arg>)
    requires EncodesArgs(b, args) && EncodesArgs(c, args)
    ensures |b| == |c|
  {
    if args != [] { SameLength(b[ArgSize(args[0])..], c[ArgSize(args[0])..], args[1..]); }
  }

  /** Fewer arguments take fewer bytes. */
  lemma {:induction false} Shorter(b: Bytes, c: Bytes, args: seq<Arg>, k: nat)
    requires 1 <= k <= |args| && EncodesArgs(b, args) && EncodesArgs(c, args[k..])
    ensures |c| < |b|
    decreases k
  {
    hide ArgSize, EncodesArg;
    var n := ArgSize(args[0]);
    ArgPositive(args[0]);
    if k == 1 {
      SameLength(b[n..], c, args[1..]);
    } else {
      assert args[k..] == args[1..][k - 1..];
      Shorter(b[n..], c, args[1..], k - 1);
    }
  }

  /** A slice of a slice. */
  lemma SubSlice(data: Bytes, p: nat, n: nat, i: nat, j: nat)
    requires p + n <= |data| && i <= j <= n
    ensures data[p..p + n][i..j] == data[p + i..p + j]
  {
    var w := data[p..p + n];
    forall k | 0 <= k < j - i
      ensures w[i..j][k] == data[p + i..p + j][k]
    {
      assert w[i..j][k] == w[i + k] == data[p + (i + k)];
    }
    assert |w[i..j]| == j - i == |data[p + i..p + j]|;
  }

  /** A blob in place: its size, then its data. */
  lemma BlobAt(data: Bytes, p: nat, b: Bytes)
    requires ArgOk(B(b)) && p + ArgSize(B(b)) <= |data| && EncodesArg(data[p..p + ArgSize(B(b))], B(b))
    ensures OSCint(data, p) == |b| && data[p + 4..p + 4 + |b|] == b
  {
    hide BE32;
    var n := ArgSize(B(b));
    var w := data[p..p + n];
    RoundWords(|b|);
    hide Round4;
    assert |w| == n && n >= 4 + |b|;
    assert data[p..p + 4] == w[..4] by { SubSlice(data, p, n, 0, 4); assert w[..4] == w[0..4]; }
    SubSlice(data, p, n, 4, 4 + |b|);
    assert w[4..4 + |b|] == b;
    assert w[..4] == BE32(|b|);
    Int32RoundTrip(data, p, |b|);
  }

  /** A string in place. */
  lemma StringAt(data: Bytes, p: nat, s: Bytes)
    requires p + ArgSize(S(s)) <= |data| && EncodesArg(data[p..p + ArgSize(S(s))], S(s))
    ensures OscString(s) <= data[p..]
  {
    hide OscString;
    assert data[p..][..|OscString(s)|] == data[p..p + |OscString(s)|];
  }

  lemma ArgPositive(a: Arg)
    ensures ArgSize(a) >= 4
  {
  }

  /** Where a message's tags and arguments start. */
  lemma IterStart(inData: Bytes, m: Message)
    requires MessageOk(m) && EncodesMessage(OscString(m.address) + inData, m)
    ensures var text := [TAG_COMMA] + TagsOf(m.args); var n := |OscString(text)|;
      && NoZero(text) && n <= |inData| && OscString(text) <= inData[0..] && 1 + |m.args| + 1 <= |inData|
      && (forall i :: 0 <= i < |m.args| ==> inData[1 + i] == TagOf(m.args[i]) && ArgOk(m.args[i]))
      && inData[1 + |m.args|] == 0 && EncodesArgs(inData[n..], m.args)
  {
    hide EncodesArgs, Zeros, TagsOf, ArgOk;
    var text := [TAG_COMMA] + TagsOf(m.args);
    var a, t := OscString(m.address), OscString(text);
    var b := a + inData;
    hide OscString;
    assert (a + t) <= b;
    assert inData == b[|a|..] && t == (a + t)[|a|..];
    assert inData[..|t|] == t;
    assert b[|a + t|..] == inData[|t|..];
    assert forall i :: 0 <= i < |t| ==> inData[i] == t[i];
    assert forall i :: 0 <= i < |text| ==> t[i] == t[..|text|][i];
    assert inData[|text|] == 0;
  }

  /** Reads the next argument by its tag. */
  method ReadArg(it: MsgIter) returns (a: Arg)
    requires it.Valid() && it.count < |it.args|
    modifies it
    ensures it.Valid() && it.count == old(it.count) + 1 && a == it.args[old(it.count)]
  {
    hide EncodesArgs, EncodesArg, OscString, BE32, MsgIter.Valid;
    var c := it.NextTag();
    if c == TAG_I {
      var i := it.GetI(0);
      a := I(i);
    } else if c == TAG_S {
      var s := it.GetS(None);
      a := S(s.value);
    } else {
      it.BlobHere();
      var size := it.GetBSize();
      var b := it.GetB(size);
      a := B(b.value);
    }
  }

  /** Reads arguments while bytes remain. */
  method ReadArgs(it: MsgIter) returns (args: seq<Arg>)
    requires it.Valid() && it.count == 0
    modifies it
    ensures args == it.args
  {
    hide EncodesArgs, EncodesArg, OscString, BE32, MsgIter.Valid;
    args := [];
    assert it.count <= |it.args| by { it.InRange(); }
    var left := it.Remain();
    while left != 0
      invariant it.Valid() && it.count <= |it.args| && args == it.args[..it.count]
      invariant left == 0 <==> it.count == |it.args|
      decreases |it.args| - it.count
    {
      ghost var n := it.count;
      var a := ReadArg(it);
      assert it.args[..n + 1] == it.args[..n] + [it.args[n]];
      args := args + [a];
      left := it.Remain();
    }
  }

  /** Reads a whole message: the address, then the arguments. */
  method ReadMessage(body: Bytes, ghost m: Message) returns (r: Message)
    requires MessageOk(m) && EncodesMessage(body, m)
    ensures r == m
  {
    hide EncodesArgs, EncodesArg, OscString, BE32, MsgIter.Valid;
    ghost var a := OscString(m.address);
    assert a <= body[0..];
    var address := CString(body, 0, m.address);
    var start := OSCstrskip(body, 0, m.address);
    assert body == a + body[start..];
    var it := new MsgIter(body[start..], m);
    var args := ReadArgs(it);
    r := Message(address, args);
  }

  /** What comes out of a packet: the messages themselves, unless the dump does not show them. */
  datatype Read = AsWritten(m: Message) | NotShown | Nested(time: nat, elements: seq<Read>)

  function ReadOf(p: Packet): Read {
    match p
    case Single(m) => if Showable(m) then AsWritten(m) else NotShown
    case Many(time, elements) => Nested(time, ReadAll(elements))
  }

  function ReadAll(elements: seq<Packet>): (r: seq<Read>)
    ensures |r| == |elements| && forall i :: 0 <= i < |r| ==> r[i] == ReadOf(elements[i])
  {
    if elements == [] then [] else [ReadOf(elements[0])] + ReadAll(elements[1..])
  }

  /** Every bundle in the packet is one. */
  predicate Unambiguous(p: Packet) {
    match p
    case Single(m) => m.address != BUNDLE
    case Many(_, elements) => forall i :: 0 <= i < |elements| ==> Unambiguous(elements[i])
  }

  /** Any packet, of any depth, dumped and read: the tree comes back with its times and, as they were, the
      messages that the dump shows. */
  method ReadPacket(data: Bytes, ghost p: Packet) returns (r: Read)
    requires EncodesPacket(data, p) && Unambiguous(p) && |data| < 0x8000_0000
    ensures r == ReadOf(p)
  {
    hide EncodesPacket, Look, Shows;
    DumpShows(data, p);
    var seen := LookAt(data);
    r := ReadSeen(seen.value, p);
  }

  method ReadSeen(seen: Seen, ghost p: Packet) returns (r: Read)
    requires Shows(seen, p) && Unambiguous(p)
    ensures r == ReadOf(p)
    decreases p
  {
    match seen {
      case Skipped => r := NotShown;
      case Shown(body) =>
        var m := ReadMessage(body, p.message);
        r := AsWritten(m);
      case Inner(bundle) =>
        var elements := [];
        for i := 0 to |bundle.value.elements|
          invariant |elements| == i
          invariant forall j :: 0 <= j < i ==> elements[j] == ReadOf(p.elements[j])
        {
          var one := ReadSeen(bundle.value.elements[i], p.elements[i]);
          elements := elements + [one];
        }
        assert elements == ReadAll(p.elements);
        r := Nested(bundle.value.time, elements);
    }
  }

  /** Round trip: a bundle of any messages that fits, whatever order their tags and arguments were written
      in, walked and read. The time comes back, and exactly the messages that the dump shows, as they were
      written. */
  method RoundTrip(p: ScPacket, time: int, messages: seq<Message>, plans: seq<Plan>)
    returns (ok: bool, readTime: nat, read: seq<Read>)
    requires p.Valid() && p.wrpos == 0 && p.inbundle == 0 && 4 * p.endpos < 0x8000_0000
    requires Planned(messages, plans)
    modifies p, p.buf
    ensures ok <==> BundleSize(messages) <= 4 * p.endpos
    ensures ok ==> |read| == |messages| && readTime == time % (WORD * WORD)
    ensures ok ==> forall i :: 0 <= i < |read| ==>
      read[i] == if Showable(messages[i]) then AsWritten(messages[i]) else NotShown
  {
    hide EncodesMessage, BE32, OscString, Bundle, MessageOk, Carries, WellAnnounced, Walked;
    read, readTime := [], 0;
    ghost var bodies: seq<Bytes>;
    ok, bodies := WriteBundle(p, time, messages, plans);
    if !ok { return; }
    var data := p.buf[..4 * p.wrpos];
    ghost var singles := seq(|messages|, i requires 0 <= i < |messages| => Single(messages[i]));
    WrittenShows(data, time, bodies, messages, singles);
    var seen := WalkBundle(data);
    readTime := seen.value.time;
    var elements := seen.value.elements;
    for i := 0 to |elements|
      invariant |read| == i
      invariant forall j :: 0 <= j < i ==>
        read[j] == if Showable(messages[j]) then AsWritten(messages[j]) else NotShown
    {
      assert Shows(elements[i], singles[i]);
      if elements[i].Shown? {
        var m := ReadMessage(elements[i].body, messages[i]);
        read := read + [AsWritten(m)];
      } else {
        read := read + [NotShown];
      }
    }
  }

  /** What is written as a bundle of messages is a packet, and is shown as one. */
  lemma WrittenShows(data: Bytes, time: int, bodies: seq<Bytes>, messages: seq<Message>, singles: seq<Packet>)
    requires data == Bundle(time, bodies) && |bodies| == |messages| && |data| < 0x8000_0000
    requires forall i :: 0 <= i < |messages| ==> MessageOk(messages[i]) && EncodesMessage(bodies[i], messages[i])
    requires |singles| == |messages| && forall i :: 0 <= i < |messages| ==> singles[i] == Single(messages[i])
    ensures Walked(data).Some? && Walked(data).value.time == time % (WORD * WORD)
    ensures ShowsAll(Walked(data).value.elements, singles)
  {
    hide EncodesMessage, MessageOk, WalkedFrom;
    TimeWraps(time);
    var time' := time % (WORD * WORD);
    assert data == Bundle(time', bodies);
    forall i | 0 <= i < |singles|
      ensures EncodesPacket(bodies[i], singles[i])
    {
      assert MessageOk(messages[i]) && EncodesMessage(bodies[i], messages[i]);
    }
    BundleShows(data, time', bodies, singles);
  }

  /** A message that a client can write and the dump takes for a bundle. */
  lemma BundleAddress()
    ensures var m, plan := Message(BUNDLE, []), Plan(1, [AddTag(TAG_COMMA)]);
      MessageOk(m) && !Showable(m) && Carries(plan, m) && WellAnnounced(plan, m)
  {
    var calls := [AddTag(TAG_COMMA)];
    assert calls[..0] == [];
    assert TagsIn(calls) == [TAG_COMMA] && ArgsIn(calls) == [];
    assert TagsOf([]) == [];
  }

  /** A blob and an int, and geti called for the blob: all tags are counted, and the int is still to come. */
  method CountedTwice() returns (it: MsgIter)
    ensures fresh(it) && it.args == [B([1]), I(5)] && it.count == 2 && it.rdpos + 4 == |it.data|
    ensures it.tags + 2 < |it.data| && it.data[it.tags + 2] == 0
  {
    ghost var m := Message([47], [B([1]), I(5)]);
    var data := [TAG_COMMA, TAG_B, TAG_I, 0, 0, 0, 0, 1, 1, 0, 0, 0, 0, 0, 0, 5];
    hide EncodesMessage, EncodesArgs, OscString, BE32;
    TwoArgs(data, m);
    it := new MsgIter(data, m);
    var value := it.GetI(0);
  }

  lemma TwoArgs(data: Bytes, m: Message)
    requires m == Message([47], [B([1]), I(5)])
    requires data == [TAG_COMMA, TAG_B, TAG_I, 0, 0, 0, 0, 1, 1, 0, 0, 0, 0, 0, 0, 5]
    ensures MessageOk(m) && EncodesMessage(OscString(m.address) + data, m)
    ensures |OscString([TAG_COMMA] + TagsOf(m.args))| == 4
  {
    var tags := OscString([TAG_COMMA] + TagsOf(m.args));
    assert tags == [TAG_COMMA, TAG_B, TAG_I, 0];
    var head := OscString(m.address) + tags;
    var b := OscString(m.address) + data;
    var rest: Bytes := [0, 0, 0, 1, 1, 0, 0, 0, 0, 0, 0, 5];
    hide OscString, EncodesArgs;
    assert data == tags + rest;
    assert head <= b && b[|head|..] == rest;
    BlobAndInt(rest);
  }

  lemma BlobAndInt(rest: Bytes)
    requires rest == [0, 0, 0, 1, 1, 0, 0, 0, 0, 0, 0, 5]
    ensures EncodesArgs(rest, [B([1]), I(5)])
  {
    assert BE32(1) == [0, 0, 0, 1] && BE32(5) == [0, 0, 0, 5];
    hide BE32;
    assert rest[..8] == [0, 0, 0, 1, 1, 0, 0, 0] && rest[8..] == [0, 0, 0, 5];
    assert EncodesArg(rest[..8], B([1]));
    assert EncodesArg(rest[8..], I(5));
    assert rest[8..][..4] == rest[8..] && rest[8..][4..] == [];
    assert [B([1]), I(5)][1..] == [I(5)];
    assert EncodesArgs(rest[8..], [I(5)]);
  }

  /** The message "/s" with an int, a string and a blob, byte by byte. */
  lemma LiteralMessage()
    ensures EncodesMessage(
              [47, 115, 0, 0] + [44, 105, 115, 98, 0, 0, 0, 0]
              + ([1, 2, 3, 4] + [97, 98, 0, 0] + [0, 0, 0, 1, 9, 0, 0, 0]),
              Message([47, 115], [I(0x0102_0304), S([97, 98]), B([9])]))
  {
    var m := Message([47, 115], [I(0x0102_0304), S([97, 98]), B([9])]);
    StringBytes([47, 115, 0, 0], [47, 115]);
    StringBytes([44, 105, 115, 98, 0, 0, 0, 0], [44, 105, 115, 98]);
    assert [TAG_COMMA] + TagsOf(m.args) == [44, 105, 115, 98];
    hide OscString, EncodesArgs, EncodesMessage, TagsOf;
    ThreeArgs();
    Assembled([47, 115, 0, 0], [44, 105, 115, 98, 0, 0, 0, 0],
              [1, 2, 3, 4] + [97, 98, 0, 0] + [0, 0, 0, 1, 9, 0, 0, 0], m);
  }

  lemma Assembled(address: Bytes, tags: Bytes, rest: Bytes, m: Message)
    requires address == OscString(m.address) && tags == OscString([TAG_COMMA] + TagsOf(m.args))
    requires EncodesArgs(rest, m.args)
    ensures EncodesMessage(address + tags + rest, m)
  {
    hide OscString, EncodesArgs, TagsOf;
    assert (address + tags + rest)[|address + tags|..] == rest;
  }

  lemma ThreeArgs()
    ensures EncodesArgs([1, 2, 3, 4] + [97, 98, 0, 0] + [0, 0, 0, 1, 9, 0, 0, 0],
                        [I(0x0102_0304), S([97, 98]), B([9])])
  {
    var i, s, b := I(0x0102_0304), S([97, 98]), B([9]);
    var ib: Bytes, sb: Bytes, bb: Bytes := [1, 2, 3, 4], [97, 98, 0, 0], [0, 0, 0, 1, 9, 0, 0, 0];
    OneArg(ib, i) by { assert BE32(0x0102_0304) == ib; }
    assert EncodesArg(sb, s) by { StringBytes(sb, [97, 98]); }
    assert EncodesArg(bb, b) by { assert BE32(1) == [0, 0, 0, 1] && bb[..4] == [0, 0, 0, 1] && bb[4..5] == [9]; }
    hide EncodesArg, EncodesArgs;
    AppendArg(ib, [i], sb, s);
    AppendArg(ib + sb, [i] + [s], bb, b);
    assert [i] + [s] + [b] == [i, s, b];
  }

  lemma OneArg(c: Bytes, a: Arg)
    requires EncodesArg(c, a)
    ensures EncodesArgs(c, [a])
  {
    ArgLength(c, a);
    assert c[..|c|] == c && c[|c|..] == [] && [a][1..] == [];
  }

  /** Five tags announced and one written over a buffer of sevens: what a decoder finds is not the tag
      string. */
  method StaleTags() returns (p: ScPacket)
    ensures fresh(p) && p.Valid() && p.Written() == [TAG_COMMA, 7, 7, 7, 0, 0, 0, 0]
    ensures p.Written() != OscString([TAG_COMMA])
  {
    p := new ScPacket(8, 7);
    var ok := p.MakeTags(5);
    p.AddTag(TAG_COMMA);
    StringLength([TAG_COMMA]);
  }
}
