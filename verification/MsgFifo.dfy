/** The lock-free message queue `MsgFifo`: a writer, a performer and a freer chase each other around a ring
    of N slots. Every atomic load and store is one step, and the steps of the three sides interleave
    freely. The state also records which messages have been accepted, performed and freed. */
module MsgFifo {
  import opened Bits

  // ---------- positions ----------

  /** a & b on natural numbers. */
  function And(a: nat, b: nat): nat {
    if a == 0 || b == 0 then 0 else And(a / 2, b / 2) * 2 + (if a % 2 == 1 && b % 2 == 1 then 1 else 0)
  }

  /** NextPos for a ring of 2^k slots. */
  function NextPos(pos: nat, k: nat): nat {
    And(pos + 1, Pow2(k) - 1)
  }

  /** The slot of the i-th message, counting messages from 1 around the ring. */
  function Slot(i: nat, n: nat): (s: nat)
    requires n > 0
    ensures s < n
  {
    if i < n then i else Slot(i - n, n)
  }

  lemma {:induction false} SlotNext(i: nat, n: nat)
    requires n > 0
    ensures Slot(i + 1, n) == if Slot(i, n) == n - 1 then 0 else Slot(i, n) + 1
  {
    if i >= n { SlotNext(i - n, n); }
  }

  /** It is the remainder. */
  lemma {:induction false} SlotIsRemainder(i: nat, n: nat)
    requires n > 0
    ensures Slot(i, n) == i % n
  {
    if i >= n {
      SlotIsRemainder(i - n, n);
      Remainder(i, n, (i - n) / n + 1, (i - n) % n);
    } else {
      Remainder(i, n, 0, i);
    }
  }

  lemma Remainder(x: nat, d: nat, q: nat, r: nat)
    requires d > 0 && x == d * q + r && r < d
    ensures x % d == r
  {
    var z := q - x / d;
    assert d * z == d * q - d * (x / d);
    if z != 0 { Multiple(d, z); }
  }

  lemma Multiple(d: nat, z: int)
    requires d > 0 && z != 0
    ensures d * z >= d || d * z + d <= 0
  {
    if z > 0 { assert d * (z - 1) >= 0; } else { assert d * (-z - 1) >= 0; }
  }

  lemma {:induction false} SlotHalves(q: nat, b: nat, half: nat)
    requires half > 0 && b < 2
    ensures Slot(2 * q + b, 2 * half) == 2 * Slot(q, half) + b
  {
    if q >= half { SlotHalves(q - half, b, half); }
  }

  /** Masking with 2^k - 1 is the remainder modulo 2^k. */
  lemma AndMask(x: nat, k: nat)
    ensures And(x, Pow2(k) - 1) == x % Pow2(k)
  {
    AndMaskSlot(x, k);
    SlotIsRemainder(x, Pow2(k));
  }

  lemma {:induction false} AndMaskSlot(x: nat, k: nat)
    ensures And(x, Pow2(k) - 1) == Slot(x, Pow2(k))
  {
    if k > 0 && x > 0 {
      var half := Pow2(k - 1);
      assert (2 * half - 1) / 2 == half - 1;
      AndMaskSlot(x / 2, k - 1);
      SlotHalves(x / 2, x % 2, half);
      assert 2 * (x / 2) + x % 2 == x;
    }
  }

  /** Two of any n consecutive messages never share a slot; the n-th after a message does. */
  lemma {:induction false} SlotsApart(a: nat, b: nat, n: nat)
    requires n > 0 && a < b <= a + n
    ensures Slot(a, n) == Slot(b, n) <==> b == a + n
  {
    if a >= n { SlotsApart(a - n, b - n, n); }
  }

  lemma NextPosIsSlot(i: nat, k: nat)
    ensures NextPos(Slot(i, Pow2(k)), k) == Slot(i + 1, Pow2(k))
  {
    var n := Pow2(k);
    SlotNext(i, n);
    SlotNext(Slot(i, n), n);
    AndMaskSlot(Slot(i, n) + 1, k);
    hide And;
  }

  // ---------- the state machine ----------

  type Msg = int

  datatype WriterPc =
    | WIdle
    | WNext(msg: Msg, next: nat)                 // write head loaded
    | WRoom(msg: Msg, next: nat)                 // found room
    | WStored(msg: Msg, next: nat)               // item written, not published

  datatype SidePc =
    | Idle
    | Checking(own: nat)                         // own head loaded
    | HasNext(next: nat)                         // there is a message
    | Handled(next: nat)                         // message handled, head not moved

  /** `accepted`, `performed` and `freed` list messages; the heads are published after `written`,
      `done` and `released` of them. */
  datatype State = State(
    readHead: nat, writeHead: nat, freeHead: nat, items: seq<Msg>,
    writer: WriterPc, performer: SidePc, freer: SidePc,
    accepted: seq<Msg>, performed: seq<Msg>, freed: seq<Msg>,
    done: nat, released: nat)

  datatype Event =
    | CallWrite(msg: Msg)   // Write: next = NextPos(mWriteHead.load())
    | LoadFreeHead          // Write: if (next == mFreeHead.load()) return false
    | StoreItem             // Write: mItems[next] = data
    | PublishWrite          // Write: mWriteHead.store(next)
    | LoadReadHead          // Perform: HasData's load of mReadHead
    | CompareWriteHead      // Perform: HasData's load of mWriteHead; the loop ends or NextPos is taken
    | PerformItem           // Perform: mItems[next].Perform()
    | PublishRead           // Perform: mReadHead.store(next)
    | LoadOwnFreeHead       // Free: NeedsFree's load of mFreeHead
    | CompareReadHead       // Free: NeedsFree's load of mReadHead
    | FreeItem              // Free: mItems[next].Free()
    | PublishFree           // Free: mFreeHead.store(next)

  ghost function Init(k: nat, junk: seq<Msg>): State {
    State(0, 0, 0, junk, WIdle, Idle, Idle, [], [], [], 0, 0)
  }

  predicate Enabled(v: State, e: Event) {
    match e
    case CallWrite(_) => v.writer.WIdle?
    case LoadFreeHead => v.writer.WNext?
    case StoreItem => v.writer.WRoom?
    case PublishWrite => v.writer.WStored?
    case LoadReadHead => v.performer.Idle?
    case CompareWriteHead => v.performer.Checking?
    case PerformItem => v.performer.HasNext?
    case PublishRead => v.performer.Handled?
    case LoadOwnFreeHead => v.freer.Idle?
    case CompareReadHead => v.freer.Checking?
    case FreeItem => v.freer.HasNext?
    case PublishFree => v.freer.Handled?
  }

  /** Every index an event uses is inside the ring. */
  predicate InRing(v: State, k: nat) {
    && |v.items| == Pow2(k)
    && (v.writer.WRoom? ==> v.writer.next < Pow2(k))
    && (v.performer.HasNext? ==> v.performer.next < Pow2(k))
    && (v.freer.HasNext? ==> v.freer.next < Pow2(k))
  }

  function Apply(v: State, e: Event, k: nat): State
    requires InRing(v, k) && Enabled(v, e)
  {
    match e
    case CallWrite(msg) => v.(writer := WNext(msg, NextPos(v.writeHead, k)))
    case LoadFreeHead =>
      v.(writer := if v.writer.next == v.freeHead then WIdle else WRoom(v.writer.msg, v.writer.next))
    case StoreItem =>
      v.(items := v.items[v.writer.next := v.writer.msg], writer := WStored(v.writer.msg, v.writer.next))
    case PublishWrite => v.(writeHead := v.writer.next, writer := WIdle, accepted := v.accepted + [v.writer.msg])
    case LoadReadHead => v.(performer := Checking(v.readHead))
    case CompareWriteHead =>
      v.(performer := if v.performer.own == v.writeHead then Idle else HasNext(NextPos(v.readHead, k)))
    case PerformItem =>
      v.(performed := v.performed + [v.items[v.performer.next]], performer := Handled(v.performer.next))
    case PublishRead => v.(readHead := v.performer.next, done := v.done + 1, performer := Idle)
    case LoadOwnFreeHead => v.(freer := Checking(v.freeHead))
    case CompareReadHead =>
      v.(freer := if v.freer.own == v.readHead then Idle else HasNext(NextPos(v.freeHead, k)))
    case FreeItem => v.(freed := v.freed + [v.items[v.freer.next]], freer := Handled(v.freer.next))
    case PublishFree => v.(freeHead := v.freer.next, released := v.released + 1, freer := Idle)
  }

  /** No side ever waits for another: each has a next step in every state. */
  lemma NeverBlocked(v: State)
    ensures Enabled(v, match v.writer
                       case WIdle => CallWrite(0)
                       case WNext(_, _) => LoadFreeHead
                       case WRoom(_, _) => StoreItem
                       case WStored(_, _) => PublishWrite)
    ensures Enabled(v, match v.performer
                       case Idle => LoadReadHead
                       case Checking(_) => CompareWriteHead
                       case HasNext(_) => PerformItem
                       case Handled(_) => PublishRead)
    ensures Enabled(v, match v.freer
                       case Idle => LoadOwnFreeHead
                       case Checking(_) => CompareReadHead
                       case HasNext(_) => FreeItem
                       case Handled(_) => PublishFree)
  {
  }

  // ---------- the invariant ----------

  /** The heads stand where the counts say, and the counts chase each other within N - 1. */
  predicate Heads(v: State, k: nat) {
    var n := Pow2(k);
    && v.released <= v.done <= |v.accepted| < v.released + n
    && v.writeHead == Slot(|v.accepted|, n) && v.readHead == Slot(v.done, n) && v.freeHead == Slot(v.released, n)
  }

  /** Message number i, not freed yet, sits in its slot. */
  predicate Stored(v: State, i: nat, k: nat)
    requires InRing(v, k) && i < |v.accepted|
  {
    v.items[Slot(i + 1, Pow2(k))] == v.accepted[i]
  }

  predicate WriterOk(v: State, k: nat)
    requires InRing(v, k)
  {
    var w := |v.accepted|;
    match v.writer
    case WIdle => true
    case WNext(_, next) => next == Slot(w + 1, Pow2(k))
    case WRoom(_, next) => next == Slot(w + 1, Pow2(k)) && w + 1 < v.released + Pow2(k)
    case WStored(msg, next) => next == Slot(w + 1, Pow2(k)) && w + 1 < v.released + Pow2(k) && v.items[next] == msg
  }

  predicate PerformerOk(v: State, k: nat) {
    var r := v.done;
    match v.performer
    case Idle => |v.performed| == r
    case Checking(own) => |v.performed| == r && own == Slot(r, Pow2(k))
    case HasNext(next) => |v.performed| == r && next == Slot(r + 1, Pow2(k)) && r < |v.accepted|
    case Handled(next) => |v.performed| == r + 1 && next == Slot(r + 1, Pow2(k)) && r < |v.accepted|
  }

  predicate FreerOk(v: State, k: nat) {
    var f := v.released;
    match v.freer
    case Idle => |v.freed| == f
    case Checking(own) => |v.freed| == f && own == Slot(f, Pow2(k))
    case HasNext(next) => |v.freed| == f && next == Slot(f + 1, Pow2(k)) && f < v.done
    case Handled(next) => |v.freed| == f + 1 && next == Slot(f + 1, Pow2(k)) && f < v.done
  }

  ghost predicate Inv(v: State, k: nat) {
    && InRing(v, k) && Heads(v, k)
    && (forall i: nat {:trigger Stored(v, i, k)} :: v.released <= i < |v.accepted| ==> Stored(v, i, k))
    && v.performed <= v.accepted && v.freed <= v.accepted
    && WriterOk(v, k) && PerformerOk(v, k) && FreerOk(v, k)
  }

  lemma InitInv(k: nat, junk: seq<Msg>)
    requires |junk| == Pow2(k)
    ensures Inv(Init(k, junk), k)
  {
  }

  /** The new item lands in a slot that no unfreed message uses. */
  lemma StoreKeeps(v: State, k: nat)
    requires Inv(v, k) && v.writer.WRoom?
    ensures Inv(Apply(v, StoreItem, k), k)
  {
    hide And, NextPos, Slot;
    var v' := Apply(v, StoreItem, k);
    forall i: nat | v'.released <= i < |v'.accepted|
      ensures Stored(v', i, k)
    {
      assert Stored(v, i, k);
      SlotsApart(i + 1, |v.accepted| + 1, Pow2(k));
    }
  }

  lemma PublishKeeps(v: State, k: nat)
    requires Inv(v, k) && v.writer.WStored?
    ensures Inv(Apply(v, PublishWrite, k), k)
  {
    hide And, NextPos, Slot;
    var v' := Apply(v, PublishWrite, k);
    forall i: nat | v'.released <= i < |v'.accepted|
      ensures Stored(v', i, k)
    {
      if i < |v.accepted| { assert Stored(v, i, k); }
    }
  }

  lemma WriterLoadKeeps(v: State, e: Event, k: nat)
    requires Inv(v, k) && Enabled(v, e) && (e.CallWrite? || e.LoadFreeHead?)
    ensures Inv(Apply(v, e, k), k)
  {
    hide And, NextPos, Slot;
    NextPosIsSlot(|v.accepted|, k);
    SlotsApart(v.released, |v.accepted| + 1, Pow2(k));
    SameItems(v, Apply(v, e, k), k);
  }

  lemma PerformerKeeps(v: State, e: Event, k: nat)
    requires Inv(v, k) && Enabled(v, e)
    requires e.LoadReadHead? || e.CompareWriteHead? || e.PerformItem? || e.PublishRead?
    ensures Inv(Apply(v, e, k), k)
  {
    hide And, NextPos, Slot;
    NextPosIsSlot(v.done, k);
    if v.done < |v.accepted| {
      SlotsApart(v.done, |v.accepted|, Pow2(k));
      assert Stored(v, v.done, k);
    }
    SameItems(v, Apply(v, e, k), k);
  }

  lemma FreerKeeps(v: State, e: Event, k: nat)
    requires Inv(v, k) && Enabled(v, e)
    requires e.LoadOwnFreeHead? || e.CompareReadHead? || e.FreeItem? || e.PublishFree?
    ensures Inv(Apply(v, e, k), k)
  {
    hide And, NextPos, Slot;
    NextPosIsSlot(v.released, k);
    if v.released < v.done {
      SlotsApart(v.released, v.done, Pow2(k));
      assert Stored(v, v.released, k);
    }
    SameItems(v, Apply(v, e, k), k);
  }

  lemma SameItems(v: State, v': State, k: nat)
    requires Inv(v, k) && InRing(v', k) && v'.items == v.items && v'.accepted == v.accepted && v'.released >= v.released
    ensures forall i: nat {:trigger Stored(v', i, k)} :: v'.released <= i < |v'.accepted| ==> Stored(v', i, k)
  {
    forall i: nat | v'.released <= i < |v'.accepted|
      ensures Stored(v', i, k)
    {
      assert Stored(v, i, k);
    }
  }

  lemma StepInv(v: State, e: Event, k: nat)
    requires Inv(v, k) && Enabled(v, e)
    ensures Inv(Apply(v, e, k), k)
  {
    match e
    case StoreItem => StoreKeeps(v, k);
    case PublishWrite => PublishKeeps(v, k);
    case CallWrite(_) => WriterLoadKeeps(v, e, k);
    case LoadFreeHead => WriterLoadKeeps(v, e, k);
    case LoadReadHead => PerformerKeeps(v, e, k);
    case CompareWriteHead => PerformerKeeps(v, e, k);
    case PerformItem => PerformerKeeps(v, e, k);
    case PublishRead => PerformerKeeps(v, e, k);
    case LoadOwnFreeHead => FreerKeeps(v, e, k);
    case CompareReadHead => FreerKeeps(v, e, k);
    case FreeItem => FreerKeeps(v, e, k);
    case PublishFree => FreerKeeps(v, e, k);
  }

  // ---------- whole runs ----------

  ghost predicate Reaches(v: State, events: seq<Event>, k: nat, v': State)
    decreases |events|
  {
    if events == [] then v' == v
    else InRing(v, k) && Enabled(v, events[0]) && Reaches(Apply(v, events[0], k), events[1..], k, v')
  }

  lemma {:induction false} RunInv(v: State, events: seq<Event>, k: nat, v': State)
    requires Inv(v, k) && Reaches(v, events, k, v')
    ensures Inv(v', k)
    decreases |events|
  {
    if events != [] {
      StepInv(v, events[0], k);
      RunInv(Apply(v, events[0], k), events[1..], k, v');
    }
  }

  // ---------- what the events say ----------

  /** The messages of the Writes that have published, in order: each is that of the last CallWrite before the
      PublishWrite. `pending` stands for the CallWrite before the first event. */
  function Published(pending: Msg, events: seq<Event>): seq<Msg>
    decreases |events|
  {
    if events == [] then []
    else
      match events[0]
      case CallWrite(msg) => Published(msg, events[1..])
      case PublishWrite => [pending] + Published(pending, events[1..])
      case _ => Published(pending, events[1..])
  }

  function Count(events: seq<Event>, e: Event): nat {
    if events == [] then 0 else (if events[0] == e then 1 else 0) + Count(events[1..], e)
  }

  /** The i-th event is the CallWrite of the Write that the j-th event publishes. */
  predicate SameWrite(events: seq<Event>, i: nat, j: nat) {
    && i < j < |events| && events[i].CallWrite? && events[j].PublishWrite?
    && forall l :: i < l < j ==> !events[l].CallWrite?
  }

  /** The message that the j-th event publishes is the one its Write was called with, and it is accepted as
      the next after those published before. */
  lemma {:induction false} PublishedAt(pending: Msg, events: seq<Event>, i: nat, j: nat)
    requires SameWrite(events, i, j)
    ensures var n := Count(events[..j], PublishWrite);
      n < |Published(pending, events)| == Count(events, PublishWrite) && Published(pending, events)[n] == events[i].msg
    decreases |events|
  {
    PublishedCount(pending, events);
    assert events[..j][1..] == events[1..][..j - 1];
    if i > 0 {
      assert SameWrite(events[1..], i - 1, j - 1);
      PublishedAt(if events[0].CallWrite? then events[0].msg else pending, events[1..], i - 1, j - 1);
    } else {
      NextPublished(events[0].msg, events[1..], j - 1);
    }
  }

  lemma {:induction false} NextPublished(pending: Msg, events: seq<Event>, j: nat)
    requires j < |events| && events[j].PublishWrite? && forall l :: 0 <= l < j ==> !events[l].CallWrite?
    ensures var n := Count(events[..j], PublishWrite);
      n < |Published(pending, events)| && Published(pending, events)[n] == pending
    decreases j
  {
    if j > 0 {
      assert events[..j][1..] == events[1..][..j - 1];
      NextPublished(pending, events[1..], j - 1);
    }
  }

  lemma {:induction false} PublishedCount(pending: Msg, events: seq<Event>)
    ensures |Published(pending, events)| == Count(events, PublishWrite)
    decreases |events|
  {
    if events != [] {
      PublishedCount(if events[0].CallWrite? then events[0].msg else pending, events[1..]);
    }
  }

  /** Between v and v' the histories grow by what the events say: what is accepted are the messages of the Writes
      that have published, and there are as many handled messages and moved heads as there were such events. */
  predicate Grown(v: State, pending: Msg, events: seq<Event>, v': State) {
    && v'.accepted == v.accepted + Published(pending, events)
    && |v'.performed| == |v.performed| + Count(events, PerformItem)
    && |v'.freed| == |v.freed| + Count(events, FreeItem)
    && v'.done == v.done + Count(events, PublishRead)
    && v'.released == v.released + Count(events, PublishFree)
  }

  lemma {:induction false} Histories(v: State, pending: Msg, events: seq<Event>, k: nat, v': State)
    requires Reaches(v, events, k, v') && (!v.writer.WIdle? ==> v.writer.msg == pending)
    ensures Grown(v, pending, events, v')
    decreases |events|
  {
    hide Apply, InRing, Enabled, Published, Count, Grown;
    if events == [] {
      NothingGrown(v, pending);
    } else {
      var e := events[0];
      HistoryStep(v, e, k);
      var after := if e.CallWrite? then e.msg else pending;
      Histories(Apply(v, e, k), after, events[1..], k, v');
      GrownStep(v, e, Apply(v, e, k), pending, events, v');
    }
  }

  lemma NothingGrown(v: State, pending: Msg)
    ensures Grown(v, pending, [], v)
  {
  }

  lemma GrownStep(v: State, e: Event, w: State, pending: Msg, events: seq<Event>, v': State)
    requires events != [] && events[0] == e && Moved(v, e, w) && (e.PublishWrite? ==> v.writer.msg == pending)
    requires Grown(w, if e.CallWrite? then e.msg else pending, events[1..], v')
    ensures Grown(v, pending, events, v')
  {
    PublishedStep(pending, events);
    hide Published;
    assert v.accepted + (if e.PublishWrite? then [v.writer.msg] else [])
           + Published(if e.CallWrite? then e.msg else pending, events[1..])
        == v.accepted + Published(pending, events);
  }

  lemma PublishedStep(pending: Msg, events: seq<Event>)
    requires events != []
    ensures var e := events[0];
      Published(pending, events) ==
        (if e.PublishWrite? then [pending] else []) + Published(if e.CallWrite? then e.msg else pending, events[1..])
  {
  }

  /** What one event adds to the histories. */
  predicate Moved(v: State, e: Event, v': State) {
    && (e.PublishWrite? ==> !v.writer.WIdle?)
    && v'.accepted == v.accepted + (if e.PublishWrite? && !v.writer.WIdle? then [v.writer.msg] else [])
    && |v'.performed| == |v.performed| + (if e.PerformItem? then 1 else 0)
    && |v'.freed| == |v.freed| + (if e.FreeItem? then 1 else 0)
    && v'.done == v.done + (if e.PublishRead? then 1 else 0)
    && v'.released == v.released + (if e.PublishFree? then 1 else 0)
  }

  lemma HistoryStep(v: State, e: Event, k: nat)
    requires InRing(v, k) && Enabled(v, e)
    ensures var v' := Apply(v, e, k);
      && Moved(v, e, v') && (e.PublishWrite? ==> !v.writer.WIdle?)
      && (!v'.writer.WIdle? ==> if e.CallWrite? then v'.writer.msg == e.msg
                                else !v.writer.WIdle? && v'.writer.msg == v.writer.msg)
  {
    hide And, NextPos;
  }

  /** In every run each accepted message is performed at most once and in order, and freed at most once, in
      order, and only after it has been performed: what has been performed and freed are the first of the
      published messages, one for each PerformItem and FreeItem. */
  lemma OnceInOrder(junk: seq<Msg>, events: seq<Event>, k: nat, v: State)
    requires |junk| == Pow2(k) && Reaches(Init(k, junk), events, k, v)
    ensures v.performed <= v.accepted && v.freed <= v.performed
    ensures |v.accepted| - v.released < Pow2(k)
    ensures v.accepted == Published(0, events)
    ensures |v.performed| == Count(events, PerformItem) && |v.freed| == Count(events, FreeItem)
    ensures Count(events, PublishWrite) - Count(events, PublishFree) < Pow2(k)
  {
    InitInv(k, junk);
    RunInv(Init(k, junk), events, k, v);
    Histories(Init(k, junk), 0, events, k, v);
    PublishedCount(0, events);
  }

  /** In every run Perform ends exactly when every accepted message has been performed, and Free ends
      exactly when every message published as performed has been freed. */
  lemma Drained(junk: seq<Msg>, events: seq<Event>, k: nat, v: State)
    requires |junk| == Pow2(k) && Reaches(Init(k, junk), events, k, v)
    ensures InRing(v, k)
    ensures v.performer.Checking? ==>
      (Apply(v, CompareWriteHead, k).performer.Idle? <==> v.performed == v.accepted)
    ensures v.freer.Checking? ==>
      v.done <= |v.accepted| && (Apply(v, CompareReadHead, k).freer.Idle? <==> v.freed == v.accepted[..v.done])
  {
    hide And, NextPos, Slot;
    InitInv(k, junk);
    RunInv(Init(k, junk), events, k, v);
    if v.done < |v.accepted| { SlotsApart(v.done, |v.accepted|, Pow2(k)); }
    if v.released < v.done { SlotsApart(v.released, v.done, Pow2(k)); }
  }

  /** In every run a slot is overwritten only when the message it held has been freed. */
  lemma NoOverwrite(junk: seq<Msg>, events: seq<Event>, k: nat, v: State, i: nat)
    requires |junk| == Pow2(k) && Reaches(Init(k, junk), events, k, v) && v.writer.WRoom?
    requires v.released <= i < |v.accepted|
    ensures v.writer.next != Slot(i + 1, Pow2(k)) && InRing(v, k) && v.items[Slot(i + 1, Pow2(k))] == v.accepted[i]
  {
    hide And, NextPos, Slot;
    InitInv(k, junk);
    RunInv(Init(k, junk), events, k, v);
    SlotsApart(i + 1, |v.accepted| + 1, Pow2(k));
    assert Stored(v, i, k);
  }

  /** Write refuses exactly when N - 1 published messages are unfreed at the moment it reads the free head. */
  lemma RefusesIffFull(junk: seq<Msg>, events: seq<Event>, k: nat, v: State)
    requires |junk| == Pow2(k) && Reaches(Init(k, junk), events, k, v) && v.writer.WNext?
    ensures InRing(v, k)
    ensures Apply(v, LoadFreeHead, k).writer.WIdle? <==>
      Count(events, PublishWrite) - Count(events, PublishFree) == Pow2(k) - 1
  {
    hide And, NextPos, Slot;
    InitInv(k, junk);
    RunInv(Init(k, junk), events, k, v);
    Histories(Init(k, junk), 0, events, k, v);
    PublishedCount(0, events);
    SlotsApart(v.released, |v.accepted| + 1, Pow2(k));
  }

  /** Four steps, one after the other. */
  lemma FourSteps(v: State, e: Event, v1: State, e1: Event, v2: State, e2: Event, v3: State, e3: Event, k: nat)
    requires InRing(v, k) && Enabled(v, e) && v1 == Apply(v, e, k)
    requires InRing(v1, k) && Enabled(v1, e1) && v2 == Apply(v1, e1, k)
    requires InRing(v2, k) && Enabled(v2, e2) && v3 == Apply(v2, e2, k)
    requires InRing(v3, k) && Enabled(v3, e3)
    ensures Reaches(v, [e, e1, e2, e3], k, Apply(v3, e3, k))
  {
    hide Apply, InRing, Enabled;
    var end := Apply(v3, e3, k);
    assert Reaches(end, [], k, end);
    assert [e3][1..] == [] && [e2, e3][1..] == [e3] && [e1, e2, e3][1..] == [e2, e3];
    assert [e, e1, e2, e3][1..] == [e1, e2, e3];
    assert Reaches(v3, [e3], k, end);
    assert Reaches(v2, [e2, e3], k, end);
    assert Reaches(v1, [e1, e2, e3], k, end);
  }

  /** A Write that finds room and is not interrupted takes four steps, and its message is accepted. */
  lemma WriteGoesThrough(v: State, msg: Msg, k: nat) returns (w: State)
    requires Inv(v, k) && v.writer.WIdle? && |v.accepted| < v.released + Pow2(k) - 1
    ensures Reaches(v, [CallWrite(msg), LoadFreeHead, StoreItem, PublishWrite], k, w)
    ensures w.accepted == v.accepted + [msg] && w.writer.WIdle?
  {
    StepInv(v, CallWrite(msg), k);
    var v1 := Apply(v, CallWrite(msg), k);
    NextPosIsSlot(|v.accepted|, k);
    SlotsApart(v.released, |v.accepted| + 1, Pow2(k));
    StepInv(v1, LoadFreeHead, k);
    hide And, NextPos, Slot, Reaches, Heads, WriterOk, PerformerOk, FreerOk;
    var v2 := Apply(v1, LoadFreeHead, k);
    StepInv(v2, StoreItem, k);
    var v3 := Apply(v2, StoreItem, k);
    FourSteps(v, CallWrite(msg), v1, LoadFreeHead, v2, StoreItem, v3, PublishWrite, k);
    w := Apply(v3, PublishWrite, k);
  }

  /** Perform that finds a message and is not interrupted handles the next one in four steps. */
  lemma PerformGoesThrough(v: State, k: nat) returns (w: State)
    requires Inv(v, k) && v.performer.Idle? && v.done < |v.accepted|
    ensures Reaches(v, [LoadReadHead, CompareWriteHead, PerformItem, PublishRead], k, w)
    ensures w.performed == v.accepted[..v.done + 1] && w.done == v.done + 1 && w.performer.Idle?
  {
    StepInv(v, LoadReadHead, k);
    var v1 := Apply(v, LoadReadHead, k);
    SlotsApart(v.done, |v.accepted|, Pow2(k));
    StepInv(v1, CompareWriteHead, k);
    hide And, NextPos, Slot, Reaches, Heads, WriterOk, FreerOk, PerformerOk;
    var v2 := Apply(v1, CompareWriteHead, k);
    StepInv(v2, PerformItem, k);
    var v3 := Apply(v2, PerformItem, k);
    StepInv(v3, PublishRead, k);
    FourSteps(v, LoadReadHead, v1, CompareWriteHead, v2, PerformItem, v3, PublishRead, k);
    w := Apply(v3, PublishRead, k);
    assert |w.performed| == w.done && w.performed <= v.accepted by { PerformedCount(w, k); }
  }

  /** Free that finds a performed message and is not interrupted frees the next one in four steps. */
  lemma FreeGoesThrough(v: State, k: nat) returns (w: State)
    requires Inv(v, k) && v.freer.Idle? && v.released < v.done
    ensures Reaches(v, [LoadOwnFreeHead, CompareReadHead, FreeItem, PublishFree], k, w)
    ensures v.released < |v.accepted| && w.freed == v.accepted[..v.released + 1] && w.released == v.released + 1
    ensures w.freer.Idle?
  {
    FreeFinds(v, k);
    PerformedCount(v, k);
    hide And, NextPos, Slot, Reaches, Inv;
    StepInv(v, LoadOwnFreeHead, k);
    var v1 := Apply(v, LoadOwnFreeHead, k);
    PerformedCount(v1, k);
    StepInv(v1, CompareReadHead, k);
    var v2 := Apply(v1, CompareReadHead, k);
    PerformedCount(v2, k);
    StepInv(v2, FreeItem, k);
    var v3 := Apply(v2, FreeItem, k);
    PerformedCount(v3, k);
    StepInv(v3, PublishFree, k);
    FourSteps(v, LoadOwnFreeHead, v1, CompareReadHead, v2, FreeItem, v3, PublishFree, k);
    w := Apply(v3, PublishFree, k);
    PerformedCount(w, k);
  }

  lemma FreeFinds(v: State, k: nat)
    requires Inv(v, k) && v.released < v.done
    ensures v.done <= |v.accepted| && v.freeHead != v.readHead
  {
    SlotsApart(v.released, v.done, Pow2(k));
  }

  lemma PerformedCount(v: State, k: nat)
    requires Inv(v, k)
    ensures InRing(v, k) && v.performed <= v.accepted && v.freed <= v.accepted
    ensures (v.performer.Idle? ==> |v.performed| == v.done) && (v.freer.Idle? ==> |v.freed| == v.released)
  {
  }

  // ---------- refinement ----------

  /** The abstract queue: the unfreed messages in order of arrival, of which the first `done` have been
      performed. */
  datatype Fifo = Fifo(queue: seq<Msg>, done: nat)

  ghost function Abstract(v: State): Fifo
    requires v.released <= v.done <= |v.accepted|
  {
    Fifo(v.accepted[v.released..], v.done - v.released)
  }

  /** What each event does to a bounded queue: PublishWrite takes in the message if there is room, PublishRead
      counts the next one as performed, PublishFree lets the oldest one go, and all others change nothing. */
  ghost predicate FifoStep(q: Fifo, e: Event, msg: Msg, q': Fifo, capacity: int) {
    match e
    case PublishWrite => |q.queue| < capacity && q' == Fifo(q.queue + [msg], q.done)
    case PublishRead => q.done < |q.queue| && q' == Fifo(q.queue, q.done + 1)
    case PublishFree => 0 < q.done && 0 < |q.queue| && q' == Fifo(q.queue[1..], q.done - 1)
    case _ => q' == q
  }

  /** Every step of the three sides is what its event does to the queue of capacity N - 1, with the message of the
      Write under way; and what the performer and the freer handle is the abstract queue's next message. */
  lemma Refines(v: State, e: Event, k: nat)
    requires Inv(v, k) && Enabled(v, e)
    ensures Inv(Apply(v, e, k), k)
    ensures var msg := if v.writer.WIdle? then 0 else v.writer.msg;
      FifoStep(Abstract(v), e, msg, Abstract(Apply(v, e, k)), Pow2(k) - 1)
    ensures e.PerformItem? ==>
      var q := Abstract(v); q.done < |q.queue| && Apply(v, e, k).performed == v.performed + [q.queue[q.done]]
    ensures e.FreeItem? ==>
      var q := Abstract(v); 0 < q.done && 0 < |q.queue| && Apply(v, e, k).freed == v.freed + [q.queue[0]]
  {
    StepInv(v, e, k);
    hide And, NextPos, Slot, Inv, FifoStep;
    QueueStep(v, e, k);
    if e.PerformItem? { NextPerformed(v, k); }
    if e.FreeItem? { NextFreed(v, k); }
  }

  lemma QueueStep(v: State, e: Event, k: nat)
    requires Inv(v, k) && Enabled(v, e)
    ensures var v', msg := Apply(v, e, k), if v.writer.WIdle? then 0 else v.writer.msg;
      && v.released <= v.done <= |v.accepted| && v'.released <= v'.done <= |v'.accepted|
      && FifoStep(Abstract(v), e, msg, Abstract(v'), Pow2(k) - 1)
  {
    hide And, NextPos, Slot, Stored;
    if e.PublishWrite? { DropThenAppend(v.accepted, v.released, v.writer.msg); }
    if e.PublishFree? { DropOne(v.accepted, v.released); }
  }

  lemma NextPerformed(v: State, k: nat)
    requires Inv(v, k) && v.performer.HasNext?
    ensures v.released <= v.done < |v.accepted|
    ensures Apply(v, PerformItem, k).performed == v.performed + [v.accepted[v.released..][v.done - v.released]]
  {
    hide And, NextPos, Slot;
    assert Stored(v, v.done, k);
  }

  lemma NextFreed(v: State, k: nat)
    requires Inv(v, k) && v.freer.HasNext?
    ensures v.released < v.done <= |v.accepted|
    ensures Apply(v, FreeItem, k).freed == v.freed + [v.accepted[v.released..][0]]
  {
    hide And, NextPos, Slot;
    assert Stored(v, v.released, k);
  }

  lemma DropThenAppend(s: seq<Msg>, n: nat, x: Msg)
    requires n <= |s|
    ensures (s + [x])[n..] == s[n..] + [x]
  {
  }

  lemma DropOne(s: seq<Msg>, n: nat)
    requires n < |s|
    ensures s[n..][1..] == s[n + 1..]
  {
  }

  /** In every run the message a Write is about to publish is the one it was called with, so that the queue
      always holds the published messages that are still to be freed. */
  lemma QueueOfRun(junk: seq<Msg>, events: seq<Event>, k: nat, v: State)
    requires |junk| == Pow2(k) && Reaches(Init(k, junk), events, k, v)
    ensures var freed, read := Count(events, PublishFree), Count(events, PublishRead);
      && freed <= read <= |Published(0, events)|
      && v.released <= v.done <= |v.accepted| && Abstract(v) == Fifo(Published(0, events)[freed..], read - freed)
  {
    InitInv(k, junk);
    RunInv(Init(k, junk), events, k, v);
    Histories(Init(k, junk), 0, events, k, v);
  }
}
