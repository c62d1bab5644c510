/** The stethoscope buffer `scope_buffer`: a writer and a reader exchange three data regions without
    locks. Every load, store and exchange is one step, and steps of the two sides interleave freely.

    Besides the fields of the object, a state records the history that the claims are about: all
    completed pushes, the number of the push each region holds, and the log of finished pulls. */
module TripleBuffer {

  datatype Region = Region(frames: nat, changed: bool, data: int)

  datatype Push = Push(frames: nat, data: int)

  /** A finished pull: how many pushes were complete when it began and when it last looked at or swapped
      the stage, the push it held before and the one it holds after, and what it returned. */
  datatype Pull = Pull(began: nat, swapped: bool, atSwap: nat, before: nat, after: nat, frames: nat, data: int)

  datatype WriterPc = WIdle | WFrames(n: nat) | WChanged(n: nat)

  datatype ReaderPc =
    | RIdle
    | RLoaded(began: nat, s: int)
    | RWillSwap(began: nat)
    | RCleared(began: nat)
    | RDone(began: nat, swapped: bool, atSwap: nat, before: nat)

  datatype State = State(
    stage: int, inIdx: int, outIdx: int, regions: seq<Region>,
    writer: WriterPc, reader: ReaderPc,
    pushes: seq<Push>, holds: seq<nat>, pulls: seq<Pull>)

  datatype Event =
    | WriteData(data: int)  // the client fills the region at write_address()
    | StoreFrames(n: nat)   // push: _state[_in].frames = frames
    | StoreChanged          // push: _state[_in].changed.store(true)
    | WriterExchange        // push: _in = _stage.exchange(_in)
    | LoadStage             // pull: stage = _stage.load()
    | LoadChanged           // pull: changed = _state[stage].changed.load()
    | ClearChanged          // pull: _state[_out].changed.store(false)
    | ReaderExchange        // pull: _out = _stage.exchange(_out)
    | ReturnFrames          // pull: return _state[_out].frames

  function Init(): State {
    State(0, 1, 2, [Region(0, false, 0), Region(0, false, 0), Region(0, false, 0)], WIdle, RIdle, [], [0, 0, 0], [])
  }

  predicate WellFormed(v: State) {
    && |v.regions| == 3 && |v.holds| == 3
    && 0 <= v.stage < 3 && 0 <= v.inIdx < 3 && 0 <= v.outIdx < 3
    && (v.reader.RLoaded? ==> 0 <= v.reader.s < 3)
  }

  predicate Enabled(v: State, e: Event) {
    match e
    case WriteData(_) => v.writer.WIdle?
    case StoreFrames(_) => v.writer.WIdle?
    case StoreChanged => v.writer.WFrames?
    case WriterExchange => v.writer.WChanged?
    case LoadStage => v.reader.RIdle?
    case LoadChanged => v.reader.RLoaded?
    case ClearChanged => v.reader.RWillSwap?
    case ReaderExchange => v.reader.RCleared?
    case ReturnFrames => v.reader.RDone?
  }

  function Apply(v: State, e: Event): State
    requires WellFormed(v) && Enabled(v, e)
  {
    match e
    case WriteData(d) =>
      v.(regions := v.regions[v.inIdx := v.regions[v.inIdx].(data := d)])
    case StoreFrames(n) =>
      v.(regions := v.regions[v.inIdx := v.regions[v.inIdx].(frames := n)], writer := WFrames(n))
    case StoreChanged =>
      v.(regions := v.regions[v.inIdx := v.regions[v.inIdx].(changed := true)], writer := WChanged(v.writer.n))
    case WriterExchange =>
      v.(stage := v.inIdx, inIdx := v.stage, writer := WIdle,
         pushes := v.pushes + [Push(v.writer.n, v.regions[v.inIdx].data)],
         holds := v.holds[v.inIdx := |v.pushes| + 1])
    case LoadStage =>
      v.(reader := RLoaded(|v.pushes|, v.stage))
    case LoadChanged =>
      v.(reader := if v.regions[v.reader.s].changed then RWillSwap(v.reader.began)
                   else RDone(v.reader.began, false, |v.pushes|, v.holds[v.outIdx]))
    case ClearChanged =>
      v.(regions := v.regions[v.outIdx := v.regions[v.outIdx].(changed := false)], reader := RCleared(v.reader.began))
    case ReaderExchange =>
      v.(stage := v.outIdx, outIdx := v.stage, reader := RDone(v.reader.began, true, |v.pushes|, v.holds[v.outIdx]))
    case ReturnFrames =>
      var r := v.reader;
      v.(reader := RIdle,
         pulls := v.pulls + [Pull(r.began, r.swapped, r.atSwap, r.before, v.holds[v.outIdx],
                                  v.regions[v.outIdx].frames, v.regions[v.outIdx].data)])
  }

  // ---------- the invariant ----------

  /** The three indices name the three regions. */
  predicate Exclusive(v: State) {
    v.stage != v.inIdx && v.inIdx != v.outIdx && v.outIdx != v.stage
  }

  /** The staged region holds a push that the reader has not taken. */
  predicate Unread(v: State)
    requires WellFormed(v)
  {
    v.holds[v.stage] == |v.pushes| > v.holds[v.outIdx]
  }

  /** Region i holds push number holds[i], frames and data; 0 stands for "nothing pushed yet". */
  predicate Intact(v: State, i: int)
    requires WellFormed(v) && 0 <= i < 3
  {
    && v.holds[i] <= |v.pushes|
    && (v.holds[i] == 0 ==> v.regions[i].frames == 0)
    && (v.holds[i] > 0 ==>
          var push := v.pushes[v.holds[i] - 1];
          v.regions[i].frames == push.frames && v.regions[i].data == push.data)
  }

  /** What a finished pull promises. */
  predicate GoodPull(p: Pull, pushes: seq<Push>) {
    && p.began <= p.after <= |pushes| && p.atSwap <= |pushes| && p.before <= p.after
    && (p.swapped <==> p.after > p.before)
    && (p.swapped ==> p.after == p.atSwap)
    && (p.after == 0 ==> p.frames == 0)
    && (p.after > 0 ==> p.frames == pushes[p.after - 1].frames && p.data == pushes[p.after - 1].data)
  }

  predicate ReaderOk(v: State)
    requires WellFormed(v)
  {
    match v.reader
    case RIdle => true
    case RLoaded(began, s) =>
      && began <= |v.pushes|
      && s != v.outIdx && (s == v.stage || Unread(v))
      && (v.holds[v.outIdx] < began ==> v.regions[s].changed)
    case RWillSwap(began) => began <= |v.pushes| && Unread(v)
    case RCleared(began) => began <= |v.pushes| && Unread(v) && !v.regions[v.outIdx].changed
    case RDone(began, swapped, atSwap, before) =>
      && began <= v.holds[v.outIdx] && atSwap <= |v.pushes| && before <= v.holds[v.outIdx]
      && (swapped <==> v.holds[v.outIdx] > before)
      && (swapped ==> v.holds[v.outIdx] == atSwap)
  }

  predicate WriterOk(v: State)
    requires WellFormed(v)
  {
    match v.writer
    case WIdle => true
    case WFrames(n) => v.regions[v.inIdx].frames == n
    case WChanged(n) => v.regions[v.inIdx].frames == n && v.regions[v.inIdx].changed
  }

  ghost predicate Inv(v: State) {
    && WellFormed(v) && Exclusive(v)
    && Intact(v, v.stage) && Intact(v, v.outIdx)
    && (v.regions[v.stage].changed <==> Unread(v))
    && v.holds[v.outIdx] <= |v.pushes|
    && (!Unread(v) ==> v.holds[v.outIdx] == |v.pushes|)
    && ReaderOk(v) && WriterOk(v)
    && (forall k :: 0 <= k < |v.pulls| ==> GoodPull(v.pulls[k], v.pushes))
  }

  lemma InitInv()
    ensures Inv(Init())
  {
  }

  lemma StepInv(v: State, e: Event)
    requires Inv(v) && Enabled(v, e)
    ensures Inv(Apply(v, e))
  {
    if WriterEvent(e) { WriterStepInv(v, e); } else { ReaderStepInv(v, e); }
  }

  predicate WriterEvent(e: Event) {
    e.WriteData? || e.StoreFrames? || e.StoreChanged? || e.WriterExchange?
  }

  lemma WriterStepInv(v: State, e: Event)
    requires Inv(v) && Enabled(v, e) && WriterEvent(e)
    ensures Inv(Apply(v, e))
  {
    var v' := Apply(v, e);
    assert WellFormed(v') && Exclusive(v') && Intact(v', v'.outIdx);
  }

  lemma ReaderStepInv(v: State, e: Event)
    requires Inv(v) && Enabled(v, e) && !WriterEvent(e)
    ensures Inv(Apply(v, e))
  {
    var v' := Apply(v, e);
    assert WellFormed(v') && Exclusive(v') && Intact(v', v'.outIdx);
  }

  // ---------- whole runs ----------

  /** The state after a run of events, each of which was enabled when it happened. */
  ghost predicate Reaches(v: State, events: seq<Event>, v': State)
    decreases |events|
  {
    if events == [] then v' == v
    else WellFormed(v) && Enabled(v, events[0]) && Reaches(Apply(v, events[0]), events[1..], v')
  }

  lemma {:induction false} RunInv(v: State, events: seq<Event>, v': State)
    requires Inv(v) && Reaches(v, events, v')
    ensures Inv(v')
    decreases |events|
  {
    if events != [] {
      StepInv(v, events[0]);
      RunInv(Apply(v, events[0]), events[1..], v');
    }
  }

  /** Exclusion: after every interleaving of steps the writer's region, the staged region and the reader's
      region are the three different regions. */
  lemma AlwaysExclusive(events: seq<Event>, v: State)
    requires Reaches(Init(), events, v)
    ensures {v.inIdx, v.stage, v.outIdx} == {0, 1, 2} && v.inIdx != v.outIdx
  {
    InitInv();
    RunInv(Init(), events, v);
  }

  // ---------- what the events say ----------

  /** The buffer as a register: the client's three data blocks change hands, each exchange of the writer
      completes a push of the frames last stored and the block in hand, and each exchange of the reader takes
      the latest push. `held` is the number of the push the reader has, 0 for none. */
  datatype Register = Register(
    frames: nat, inside: int, staged: int, outside: int, pushes: seq<Push>, held: nat,
    began: nat, before: nat, swapped: bool, looked: nat, pulls: seq<Pull>)

  function Empty(): Register {
    Register(0, 0, 0, 0, [], 0, 0, 0, false, 0, [])
  }

  function Record(h: Register, e: Event): Register {
    match e
    case WriteData(d) => h.(inside := d)
    case StoreFrames(n) => h.(frames := n)
    case WriterExchange =>
      h.(pushes := h.pushes + [Push(h.frames, h.inside)], inside := h.staged, staged := h.inside)
    case LoadStage => h.(began := |h.pushes|, before := h.held, swapped := false)
    case LoadChanged => h.(looked := |h.pushes|)
    case ReaderExchange =>
      h.(held := |h.pushes|, swapped := true, looked := |h.pushes|, outside := h.staged, staged := h.outside)
    case ReturnFrames =>
      var last := if 0 < h.held <= |h.pushes| then h.pushes[h.held - 1] else Push(0, h.outside);
      h.(pulls := h.pulls + [Pull(h.began, h.swapped, h.looked, h.before, h.held, last.frames, last.data)])
    case StoreChanged => h
    case ClearChanged => h
  }

  function RecordAll(h: Register, events: seq<Event>): Register
    decreases |events|
  {
    if events == [] then h else RecordAll(Record(h, events[0]), events[1..])
  }

  predicate Agrees(v: State, h: Register)
    requires WellFormed(v)
  {
    && v.pushes == h.pushes && v.pulls == h.pulls && v.holds[v.outIdx] == h.held
    && v.regions[v.inIdx].data == h.inside && v.regions[v.stage].data == h.staged
    && v.regions[v.outIdx].data == h.outside
    && (v.writer.WFrames? || v.writer.WChanged? ==> v.writer.n == h.frames)
    && match v.reader
       case RIdle => true
       case RLoaded(began, _) => began == h.began && h.before == h.held && !h.swapped
       case RWillSwap(began) => began == h.began && h.before == h.held && !h.swapped
       case RCleared(began) => began == h.began && h.before == h.held && !h.swapped
       case RDone(began, swapped, atSwap, before) =>
         began == h.began && swapped == h.swapped && atSwap == h.looked && before == h.before
  }

  lemma RecordStep(v: State, h: Register, e: Event)
    requires Inv(v) && Agrees(v, h) && Enabled(v, e)
    ensures Inv(Apply(v, e)) && Agrees(Apply(v, e), Record(h, e))
  {
    StepInv(v, e);
  }

  lemma {:induction false} RecordRun(v: State, h: Register, events: seq<Event>, v': State)
    requires Inv(v) && Agrees(v, h) && Reaches(v, events, v')
    ensures Inv(v') && Agrees(v', RecordAll(h, events))
    decreases |events|
  {
    hide Inv, Agrees, Apply, Record, WellFormed, Enabled;
    if events != [] {
      assert WellFormed(v) && Enabled(v, events[0]);
      RecordStep(v, h, events[0]);
      RecordRun(Apply(v, events[0]), Record(h, events[0]), events[1..], v');
    }
  }

  function Count(events: seq<Event>, e: Event): nat {
    if events == [] then 0 else (if events[0] == e then 1 else 0) + Count(events[1..], e)
  }

  lemma CountTail(events: seq<Event>, j: nat, e: Event)
    requires 0 < j <= |events|
    ensures Count(events[..j], e) == (if events[0] == e then 1 else 0) + Count(events[1..][..j - 1], e)
  {
    assert events[..j][1..] == events[1..][..j - 1];
  }

  /** One push for each exchange of the writer, one pull for each return. */
  lemma {:induction false} HistoryGrows(h: Register, events: seq<Event>)
    ensures var h' := RecordAll(h, events);
      && h.pushes <= h'.pushes && |h'.pushes| == |h.pushes| + Count(events, WriterExchange)
      && h.pulls <= h'.pulls && |h'.pulls| == |h.pulls| + Count(events, ReturnFrames)
    decreases |events|
  {
    if events != [] { HistoryGrows(Record(h, events[0]), events[1..]); }
  }

  /** The push that the j-th event completes, in a register with these pushes so far. */
  function PushAt(h: Register, events: seq<Event>, j: nat): Push
    requires j < |events| && events[j].WriterExchange?
  {
    HistoryGrows(h, events);
    PlaceOf(events, j, WriterExchange);
    RecordAll(h, events).pushes[|h.pushes| + Count(events[..j], WriterExchange)]
  }

  /** The pull that the j-th event finishes. */
  function PullAt(h: Register, events: seq<Event>, j: nat): Pull
    requires j < |events| && events[j].ReturnFrames?
  {
    HistoryGrows(h, events);
    PlaceOf(events, j, ReturnFrames);
    RecordAll(h, events).pulls[|h.pulls| + Count(events[..j], ReturnFrames)]
  }

  lemma {:induction false} PlaceOf(events: seq<Event>, j: nat, e: Event)
    requires j < |events| && events[j] == e
    ensures Count(events[..j], e) < Count(events, e)
    decreases j
  {
    if j > 0 {
      CountTail(events, j, e);
      PlaceOf(events[1..], j - 1, e);
    }
  }

  /** A push has the frames last stored. */
  lemma {:induction false} PushedFrames(h: Register, events: seq<Event>, i: int, j: nat)
    requires -1 <= i < j < |events| && events[j].WriterExchange? && forall l :: i < l < j ==> !events[l].StoreFrames?
    requires i >= 0 ==> events[i].StoreFrames?
    ensures PushAt(h, events, j).frames == if i < 0 then h.frames else events[i].n
    decreases |events|
  {
    HistoryGrows(h, events);
    if j > 0 {
      CountTail(events, j, WriterExchange);
      PushedFrames(Record(h, events[0]), events[1..], if i < 0 then -1 else i - 1, j - 1);
    } else {
      HistoryGrows(Record(h, events[0]), events[1..]);
    }
  }

  /** A push has the data last written, if any was written since the push before. */
  lemma {:induction false} PushedData(h: Register, events: seq<Event>, i: int, j: nat)
    requires -1 <= i < j < |events| && events[j].WriterExchange?
    requires forall l :: i < l < j ==> !events[l].WriteData? && !events[l].WriterExchange?
    requires i >= 0 ==> events[i].WriteData?
    ensures PushAt(h, events, j).data == if i < 0 then h.inside else events[i].data
    decreases |events|
  {
    HistoryGrows(h, events);
    if j > 0 {
      CountTail(events, j, WriterExchange);
      PushedData(Record(h, events[0]), events[1..], if i < 0 then -1 else i - 1, j - 1);
    } else {
      HistoryGrows(Record(h, events[0]), events[1..]);
    }
  }

  /** A pull returns the push that was the latest at the last exchange of the reader. */
  lemma {:induction false} PulledPush(h: Register, events: seq<Event>, i: int, j: nat)
    requires -1 <= i < j < |events| && events[j].ReturnFrames? && h.held <= |h.pushes|
    requires forall l :: i < l < j ==> !events[l].ReaderExchange?
    requires i >= 0 ==> events[i].ReaderExchange?
    ensures var after := if i < 0 then h.held else |h.pushes| + Count(events[..i], WriterExchange);
      && after <= |RecordAll(h, events).pushes| && PullAt(h, events, j).after == after
      && (after == 0 ==> PullAt(h, events, j).frames == 0)
      && (after > 0 ==>
            var push := RecordAll(h, events).pushes[after - 1];
            PullAt(h, events, j).frames == push.frames && PullAt(h, events, j).data == push.data)
    decreases |events|
  {
    HistoryGrows(h, events);
    if j > 0 {
      CountTail(events, j, ReturnFrames);
      if i > 0 { CountTail(events, i, WriterExchange); }
      PulledPush(Record(h, events[0]), events[1..], if i < 0 then -1 else i - 1, j - 1);
    } else {
      HistoryGrows(Record(h, events[0]), events[1..]);
    }
  }

  /** A pull has begun when the stage was last loaded. */
  lemma {:induction false} PullBegan(h: Register, events: seq<Event>, i: nat, j: nat)
    requires i < j < |events| && events[i].LoadStage? && events[j].ReturnFrames?
    requires forall l :: i < l < j ==> !events[l].LoadStage?
    ensures PullAt(h, events, j).began == |h.pushes| + Count(events[..i], WriterExchange)
    decreases |events|
  {
    HistoryGrows(h, events);
    CountTail(events, j, ReturnFrames);
    if i > 0 {
      CountTail(events, i, WriterExchange);
      PullBegan(Record(h, events[0]), events[1..], i - 1, j - 1);
    } else {
      BeganKept(Record(h, events[0]), events[1..], j - 1);
    }
  }

  lemma {:induction false} BeganKept(h: Register, events: seq<Event>, j: nat)
    requires j < |events| && events[j].ReturnFrames? && forall l :: 0 <= l < j ==> !events[l].LoadStage?
    ensures PullAt(h, events, j).began == h.began
    decreases j
  {
    HistoryGrows(h, events);
    if j > 0 {
      CountTail(events, j, ReturnFrames);
      BeganKept(Record(h, events[0]), events[1..], j - 1);
    } else {
      HistoryGrows(Record(h, events[0]), events[1..]);
    }
  }

  /** Freshness: in every run the pushes and pulls are those of the register, and every finished pull took a new
      push exactly when it swapped, then the latest one completed at its exchange; it returned that push's frame
      count (and its region holds that push's data); and it did not miss any push that had completed before it
      began. */
  lemma EveryPullFresh(events: seq<Event>, v: State)
    requires Reaches(Init(), events, v)
    ensures var h := RecordAll(Empty(), events); v.pushes == h.pushes && v.pulls == h.pulls
    ensures |v.pushes| == Count(events, WriterExchange) && |v.pulls| == Count(events, ReturnFrames)
    ensures forall k :: 0 <= k < |v.pulls| ==> GoodPull(v.pulls[k], v.pushes)
  {
    InitInv();
    assert Agrees(Init(), Empty());
    RecordRun(Init(), Empty(), events, v);
    HistoryGrows(Empty(), events);
  }

  /** Neither side ever waits for the other: each has a next step in every state. */
  lemma NeverBlocked(v: State)
    ensures Enabled(v, match v.writer
                       case WIdle => StoreFrames(0)
                       case WFrames(_) => StoreChanged
                       case WChanged(_) => WriterExchange)
    ensures Enabled(v, match v.reader
                       case RIdle => LoadStage
                       case RLoaded(_, _) => LoadChanged
                       case RWillSwap(_) => ClearChanged
                       case RCleared(_) => ReaderExchange
                       case RDone(_, _, _, _) => ReturnFrames)
  {
  }

  /** A push that is not interrupted completes in three steps. */
  lemma PushGoesThrough(v: State, n: nat) returns (w: State)
    requires Inv(v) && v.writer.WIdle?
    ensures Reaches(v, [StoreFrames(n), StoreChanged, WriterExchange], w) && w.writer.WIdle?
    ensures |w.pushes| == |v.pushes| + 1 && w.pushes[|v.pushes|] == Push(n, v.regions[v.inIdx].data)
  {
    var v1 := Apply(v, StoreFrames(n));
    StepInv(v, StoreFrames(n));
    var v2 := Apply(v1, StoreChanged);
    StepInv(v1, StoreChanged);
    w := Apply(v2, WriterExchange);
    hide Apply, Inv;
    assert Reaches(w, [], w);
    assert [StoreFrames(n), StoreChanged, WriterExchange][1..] == [StoreChanged, WriterExchange];
    assert [StoreChanged, WriterExchange][1..] == [WriterExchange] && [WriterExchange][1..] == [];
    assert Reaches(v2, [WriterExchange], w);
    assert Reaches(v1, [StoreChanged, WriterExchange], w);
  }

  /** A pull that is not interrupted takes the latest push, in five steps or in three if the reader has it. */
  lemma PullGoesThrough(v: State) returns (events: seq<Event>, w: State)
    requires Inv(v) && v.reader.RIdle?
    ensures events == if Unread(v) then [LoadStage, LoadChanged, ClearChanged, ReaderExchange, ReturnFrames]
                      else [LoadStage, LoadChanged, ReturnFrames]
    ensures Reaches(v, events, w) && w.reader.RIdle?
    ensures |w.pulls| == |v.pulls| + 1 && w.pulls[|v.pulls|].after == |v.pushes|
  {
    var v1 := Apply(v, LoadStage);
    StepInv(v, LoadStage);
    var v2 := Apply(v1, LoadChanged);
    StepInv(v1, LoadChanged);
    assert [LoadStage, LoadChanged, ReturnFrames][1..] == [LoadChanged, ReturnFrames];
    assert [LoadChanged, ReturnFrames][1..] == [ReturnFrames] && [ReturnFrames][1..] == [];
    if Unread(v) {
      var v3 := Apply(v2, ClearChanged);
      StepInv(v2, ClearChanged);
      var v4 := Apply(v3, ReaderExchange);
      StepInv(v3, ReaderExchange);
      events, w := [LoadStage, LoadChanged, ClearChanged, ReaderExchange, ReturnFrames], Apply(v4, ReturnFrames);
      hide Apply, Inv;
      assert events[1..] == [LoadChanged, ClearChanged, ReaderExchange, ReturnFrames];
      assert events[1..][1..] == [ClearChanged, ReaderExchange, ReturnFrames];
      assert [ClearChanged, ReaderExchange, ReturnFrames][1..] == [ReaderExchange, ReturnFrames];
      assert [ReaderExchange, ReturnFrames][1..] == [ReturnFrames];
      assert Reaches(w, [], w);
      assert Reaches(v4, [ReturnFrames], w);
      assert Reaches(v3, [ReaderExchange, ReturnFrames], w);
      assert Reaches(v2, events[1..][1..], w);
      assert Reaches(v1, events[1..], w);
    } else {
      events, w := [LoadStage, LoadChanged, ReturnFrames], Apply(v2, ReturnFrames);
      hide Apply, Inv;
      assert Reaches(w, [], w);
      assert Reaches(v2, [ReturnFrames], w);
      assert Reaches(v1, [LoadChanged, ReturnFrames], w);
    }
  }

  /** A pull exchanges only while an unread push is staged. */
  lemma SwapOnlyUnread(events: seq<Event>, v: State)
    requires Reaches(Init(), events, v) && Enabled(v, ReaderExchange)
    ensures WellFormed(v) && Unread(v)
    ensures var v' := Apply(v, ReaderExchange); v'.holds[v'.outIdx] == |v.pushes| > v.holds[v.outIdx]
  {
    InitInv();
    RunInv(Init(), events, v);
  }

  /** Between pulls the reader's region does not change under it: no writer step touches it. */
  lemma ReaderUndisturbed(events: seq<Event>, v: State, e: Event)
    requires Reaches(Init(), events, v) && Enabled(v, e)
    requires WriterEvent(e)
    ensures WellFormed(v)
    ensures var v' := Apply(v, e);
      v'.outIdx == v.outIdx && v'.regions[v.outIdx] == v.regions[v.outIdx] && v'.holds[v.outIdx] == v.holds[v.outIdx]
  {
    InitInv();
    RunInv(Init(), events, v);
  }

  /** Pulls never go back to an older push. */
  lemma {:induction false} PullsMonotone(v: State, events: seq<Event>, v': State)
    requires Inv(v) && Reaches(v, events, v')
    ensures WellFormed(v') && v'.holds[v'.outIdx] >= v.holds[v.outIdx] && |v'.pulls| >= |v.pulls|
    ensures forall k :: |v.pulls| <= k < |v'.pulls| ==> v'.pulls[k].after >= v.holds[v.outIdx]
    ensures forall k :: 0 <= k < |v.pulls| ==> v'.pulls[k] == v.pulls[k]
    decreases |events|
  {
    RunInv(v, events, v');
    if events != [] {
      StepInv(v, events[0]);
      PullsMonotone(Apply(v, events[0]), events[1..], v');
    }
  }

  /** Where `allocate` puts region i, for three equal regions of `assetSize` samples from `base` on. */
  function RegionAddress(base: int, assetSize: nat, i: int): int {
    if i == 0 then base
    else if i == 1 then base + assetSize
    else base + assetSize + assetSize
  }

  /** The samples at write_address() and at read_address() never overlap, and all lie in the memory taken for
      the three regions. */
  lemma AddressesApart(events: seq<Event>, v: State, base: int, assetSize: nat, x: int, y: int)
    requires Reaches(Init(), events, v)
    requires var w := RegionAddress(base, assetSize, v.inIdx); w <= x < w + assetSize
    requires var r := RegionAddress(base, assetSize, v.outIdx); r <= y < r + assetSize
    ensures x != y && base <= x < base + 3 * assetSize && base <= y < base + 3 * assetSize
  {
    InitInv();
    RunInv(Init(), events, v);
  }
}
