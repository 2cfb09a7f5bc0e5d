/** One connection against the pump, in every interleaving of their atomic steps. */
module EventRuns {
  import opened Prelude
  import opened EventStream

  /** What is written to the client: a numbered event, the reset notice, or a lag notice. */
  datatype Item = Event(frame: Frame) | ResetNotice | LagNotice(skipped: nat)

  datatype Stage = Opening | Subscribed | Looked(highest: nat) | Replaying(rest: seq<Frame>) | Following

  /** `cursor` is the receiver's position on the wire; `start` is where it was at subscription. */
  datatype Stream = Stream(
    stage: Stage, last: Option<EventId>, start: nat, cursor: nat, outcome: Replay, sentSeq: nat, items: seq<Item>)

  datatype World = World(hub: Hub, stream: Stream)

  datatype Action =
    | PumpStamps(data: nat) | PumpPushes | PumpSends
    | Subscribes(last: Option<EventId>) | ReadsCounter | ReadsRing | ReplaysOne | Receives

  function Begin(boot: nat): World {
    World(Fresh(boot), Stream(Opening, None, 0, 0, Live, 0, []))
  }

  function Subscribe(h: Hub, s: Stream, last: Option<EventId>): Stream {
    if s.stage.Opening? then s.(stage := Subscribed, last := last, start := |h.wire|, cursor := |h.wire|) else s
  }

  function ReadCounter(h: Hub, s: Stream): Stream {
    if s.stage.Subscribed? then s.(stage := Looked(if h.next == 0 then 0 else h.next - 1)) else s
  }

  /** What the connection does first with its resume outcome: a reset notice, a replay, or straight to live. */
  function Enter(s: Stream, outcome: Replay): Stream {
    match outcome
    case Live => s.(stage := Following, outcome := Live)
    case Reset => s.(stage := Following, outcome := Reset, items := [ResetNotice])
    case Frames(frames) => s.(stage := Replaying(frames), outcome := Frames(frames))
  }

  function ReadRing(h: Hub, s: Stream): Stream {
    if s.stage.Looked? then Enter(s, Resolve(h.boot, s.stage.highest, h.ring, s.last)) else s
  }

  function ReplayOne(s: Stream): Stream {
    if !s.stage.Replaying? then s
    else if s.stage.rest == [] then s.(stage := Following)
    else
      var f := s.stage.rest[0];
      s.(stage := Replaying(s.stage.rest[1..]), items := s.items + [Event(f)], sentSeq := Max(s.sentSeq, f.seqNo))
  }

  /** The whole replay, when nothing comes between its frames. */
  function ReplayAll(s: Stream): Stream
    decreases if s.stage.Replaying? then |s.stage.rest| + 1 else 0
  {
    if s.stage.Replaying? then ReplayAll(ReplayOne(s)) else s
  }

  function Skip(s: Stream): Stream {
    s.(cursor := s.cursor + 1)
  }

  function Deliver(s: Stream, f: Frame): Stream {
    s.(cursor := s.cursor + 1, items := s.items + [Event(f)], sentSeq := f.seqNo)
  }

  function Lag(s: Stream, oldest: nat): Stream
    requires s.cursor <= oldest
  {
    s.(cursor := oldest, items := s.items + [LagNotice(oldest - s.cursor)])
  }

  /** A receiver more than the channel's capacity behind is told how many it lost and moved to the oldest kept. */
  function Receive(h: Hub, s: Stream): Stream {
    if !s.stage.Following? || s.cursor >= |h.wire| then s
    else if |h.wire| - s.cursor > RING then Lag(s, |h.wire| - RING)
    else if h.wire[s.cursor].seqNo <= s.sentSeq then Skip(s)
    else Deliver(s, h.wire[s.cursor])
  }

  function Step(w: World, a: Action): World {
    match a
    case PumpStamps(data) => w.(hub := Stamp(w.hub, data))
    case PumpPushes => w.(hub := Push(w.hub))
    case PumpSends => w.(hub := Send(w.hub))
    case Subscribes(last) => w.(stream := Subscribe(w.hub, w.stream, last))
    case ReadsCounter => w.(stream := ReadCounter(w.hub, w.stream))
    case ReadsRing => w.(stream := ReadRing(w.hub, w.stream))
    case ReplaysOne => w.(stream := ReplayOne(w.stream))
    case Receives => w.(stream := Receive(w.hub, w.stream))
  }

  function Run(boot: nat, actions: seq<Action>): World {
    if actions == [] then Begin(boot)
    else Step(Run(boot, actions[..|actions| - 1]), actions[|actions| - 1])
  }

  /** The part of a connection that writes to the client. */
  class Connection {
    var stream: Stream

    constructor (h: Hub, last: Option<EventId>)
      ensures stream == Subscribe(h, Begin(h.boot).stream, last)
    {
      stream := Stream(Subscribed, last, |h.wire|, |h.wire|, Live, 0, []);
    }

    method Resume(outcome: Replay)
      requires stream.stage.Looked?
      modifies this
      ensures stream == ReplayAll(Enter(old(stream), outcome))
    {
      match outcome
      case Live =>
        stream := stream.(stage := Following, outcome := outcome);
      case Reset =>
        stream := stream.(stage := Following, outcome := outcome, items := [ResetNotice]);
      case Frames(frames) =>
        stream := stream.(outcome := outcome, stage := Replaying(frames));
        ghost var entered := stream;
        var i := 0;
        while i < |frames|
          invariant i <= |frames| && stream.stage == Replaying(frames[i..])
          invariant ReplayAll(stream) == ReplayAll(entered)
        {
          var f := frames[i];
          assert frames[i..][1..] == frames[i + 1..] && frames[i..][0] == f;
          stream := stream.(
            stage := Replaying(frames[i + 1..]), items := stream.items + [Event(f)], sentSeq := Max(stream.sentSeq, f.seqNo));
          i := i + 1;
        }
        stream := stream.(stage := Following);
    }

    method Next(h: Hub)
      requires stream.stage.Following? && stream.cursor < |h.wire|
      modifies this
      ensures stream == Receive(h, old(stream))
    {
      if |h.wire| - stream.cursor > RING {
        var oldest := |h.wire| - RING;
        stream := stream.(cursor := oldest, items := stream.items + [LagNotice(oldest - stream.cursor)]);
        return;
      }
      var f := h.wire[stream.cursor];
      stream := stream.(cursor := stream.cursor + 1);
      if f.seqNo <= stream.sentSeq {
        return;
      }
      stream := stream.(items := stream.items + [Event(f)], sentSeq := f.seqNo);
    }
  }

  // ---- What has been delivered --------------------------------------------------------------

  function Delivered(items: seq<Item>): seq<Frame> {
    if items == [] then []
    else
      Delivered(items[..|items| - 1])
      + var item := items[|items| - 1];
        if item.Event? then [item.frame] else []
  }

  predicate Lagged(items: seq<Item>) {
    exists i :: 0 <= i < |items| && items[i].LagNotice?
  }

  lemma DeliveredOne(items: seq<Item>, item: Item)
    ensures Delivered(items + [item]) == Delivered(items) + if item.Event? then [item.frame] else []
    ensures Lagged(items + [item]) <==> Lagged(items) || item.LagNotice?
  {
    assert (items + [item])[..|items|] == items;
    if i :| 0 <= i < |items| && items[i].LagNotice? {
      assert (items + [item])[i].LagNotice?;
    }
    if item.LagNotice? {
      assert (items + [item])[|items|].LagNotice?;
    }
  }

  /** Where the delivered frames begin: after the client's id when replaying, else where it subscribed. */
  function Base(s: Stream): nat {
    if s.outcome.Frames? && s.last.Some? then s.last.value.seqNo else s.start
  }

  function Replayed(s: Stream): nat {
    if s.outcome.Frames? then Base(s) + |s.outcome.frames| else 0
  }

  /** How far into the log the connection has got while nothing was lost. */
  function Reached(s: Stream): int {
    if s.stage.Replaying? then Replayed(s) - |s.stage.rest| else Max(s.cursor, Replayed(s))
  }

  // ---- Invariants ----------------------------------------------------------------------------

  predicate Opened(s: Stream) {
    s.stage.Replaying? || s.stage.Following?
  }

  predicate StageOk(h: Hub, s: Stream) {
    && s.start <= s.cursor <= |h.wire|
    && (!Opened(s) ==> s.items == [] && s.sentSeq == 0 && s.outcome == Live)
    && (!s.stage.Following? ==> s.cursor == s.start && !Lagged(s.items))
    && (s.stage.Looked? ==> s.stage.highest <= |Log(h)| + 1)
    && (s.stage.Replaying? ==> s.outcome.Frames?)
    && (s.stage.Following? && s.outcome.Live? && s.last.Some? ==> s.start <= s.last.value.seqNo)
  }

  predicate ReplayOk(log: seq<Frame>, s: Stream) {
    s.outcome.Frames? ==>
      && s.last.Some? && s.outcome.frames != []
      && s.start <= Replayed(s) <= |log| && s.outcome.frames == log[Base(s)..Replayed(s)]
      && (s.stage.Replaying? ==>
            |s.stage.rest| <= |s.outcome.frames| && s.stage.rest == log[Replayed(s) - |s.stage.rest|..Replayed(s)])
  }

  /** While nothing was lost, the frames written are one unbroken stretch of the log. */
  predicate Unbroken(log: seq<Frame>, s: Stream) {
    !Lagged(s.items) ==>
      && Base(s) <= Reached(s) <= |log|
      && Delivered(s.items) == log[Base(s)..Reached(s)]
      && s.sentSeq == if Reached(s) == Base(s) then 0 else Reached(s)
  }

  /** Numbers only go up, and every frame written is the one that was logged under its number. */
  predicate InOrder(log: seq<Frame>, items: seq<Item>, sentSeq: nat) {
    var d := Delivered(items);
    && (forall i, k :: 0 <= i < k < |d| ==> d[i].seqNo < d[k].seqNo)
    && (forall f :: f in d ==> 0 < f.seqNo <= sentSeq)
    && (forall f :: f in d ==> f in log)
  }

  /** Two events with nothing written between them have consecutive numbers. */
  predicate Announced(items: seq<Item>) {
    forall i, k :: 0 <= i && k == i + 1 < |items| && items[i].Event? && items[k].Event? ==>
      items[k].frame.seqNo == items[i].frame.seqNo + 1
  }

  predicate TailOk(s: Stream) {
    s.items != [] && s.items[|s.items| - 1].Event? ==>
      s.sentSeq == s.items[|s.items| - 1].frame.seqNo && (s.stage.Following? ==> s.cursor <= s.sentSeq)
  }

  predicate Inv(w: World) {
    && HubOk(w.hub)
    && StageOk(w.hub, w.stream)
    && ReplayOk(Log(w.hub), w.stream)
    && Unbroken(Log(w.hub), w.stream)
    && InOrder(Log(w.hub), w.stream.items, w.stream.sentSeq)
    && Announced(w.stream.items)
    && TailOk(w.stream)
  }

  lemma PrefixSlice(shorter: seq<Frame>, longer: seq<Frame>, i: nat, k: nat)
    requires shorter <= longer && i <= k <= |shorter|
    ensures shorter[i..k] == longer[i..k]
  {
  }

  lemma LogGrows(h: Hub, g: Hub, s: Stream)
    requires HubOk(g) && Log(h) <= Log(g) && h.wire <= g.wire && Inv(World(h, s))
    ensures Inv(World(g, s))
  {
    if !Lagged(s.items) {
      PrefixSlice(Log(h), Log(g), Base(s), Reached(s));
    }
    if s.outcome.Frames? {
      PrefixSlice(Log(h), Log(g), Base(s), Replayed(s));
      if s.stage.Replaying? {
        PrefixSlice(Log(h), Log(g), Replayed(s) - |s.stage.rest|, Replayed(s));
      }
    }
  }

  lemma SubscribeKeeps(h: Hub, s: Stream, last: Option<EventId>)
    requires Inv(World(h, s)) && s.stage.Opening?
    ensures Inv(World(h, Subscribe(h, s, last)))
  {
  }

  lemma ReadCounterKeeps(h: Hub, s: Stream)
    requires Inv(World(h, s)) && s.stage.Subscribed?
    ensures Inv(World(h, ReadCounter(h, s)))
  {
  }

  lemma OpenKeeps(w: World, last: Option<EventId>)
    requires Inv(w)
    ensures Inv(Step(w, Subscribes(last))) && Inv(Step(w, ReadsCounter))
  {
    if w.stream.stage.Opening? {
      SubscribeKeeps(w.hub, w.stream, last);
    } else if w.stream.stage.Subscribed? {
      ReadCounterKeeps(w.hub, w.stream);
    }
  }

  predicate Resolved(log: seq<Frame>, last: Option<EventId>, r: Replay) {
    match r
    case Live => last.Some? ==> |log| <= last.value.seqNo
    case Reset => true
    case Frames(frames) => last.Some? && last.value.seqNo < |log| && frames == log[last.value.seqNo..|log|]
  }

  lemma ResolveGives(h: Hub, highest: nat, last: Option<EventId>)
    requires HubOk(h)
    ensures Resolved(Log(h), last, Resolve(h.boot, highest, h.ring, last))
  {
    if last.Some? && Resolve(h.boot, highest, h.ring, last) != Reset {
      ResolvedFrames(h, highest, last.value);
    }
  }

  lemma EnterKeeps(h: Hub, s: Stream, r: Replay)
    requires Inv(World(h, s)) && s.stage.Looked? && Resolved(Log(h), s.last, r)
    ensures Inv(World(h, Enter(s, r)))
  {
  }

  lemma ReadRingKeeps(w: World)
    requires Inv(w)
    ensures Inv(Step(w, ReadsRing))
  {
    if w.stream.stage.Looked? {
      ResolveGives(w.hub, w.stream.stage.highest, w.stream.last);
      EnterKeeps(w.hub, w.stream, Resolve(w.hub.boot, w.stream.stage.highest, w.hub.ring, w.stream.last));
    }
  }

  lemma OrderOne(log: seq<Frame>, items: seq<Item>, sentSeq: nat, f: Frame)
    requires InOrder(log, items, sentSeq) && f in log && sentSeq < f.seqNo
    ensures InOrder(log, items + [Event(f)], f.seqNo)
  {
  }

  lemma AnnounceOne(items: seq<Item>, item: Item)
    requires Announced(items)
    requires item.Event? && items != [] && items[|items| - 1].Event? ==>
               item.frame.seqNo == items[|items| - 1].frame.seqNo + 1
    ensures Announced(items + [item])
  {
  }

  lemma StretchOne(log: seq<Frame>, i: nat, k: nat)
    requires i <= k < |log|
    ensures log[i..k] + [log[k]] == log[i..k + 1]
  {
  }

  lemma ReplayNext(log: seq<Frame>, s: Stream)
    requires s.stage.Replaying? && s.stage.rest != [] && !Lagged(s.items) && Numbered(log)
    requires ReplayOk(log, s) && Unbroken(log, s)
    ensures 0 <= Reached(s) < |log| && s.stage.rest[0] == log[Reached(s)] && s.sentSeq <= Reached(s)
  {
  }

  lemma ReplayOneUnbroken(log: seq<Frame>, s: Stream)
    requires s.stage.Replaying? && s.stage.rest != [] && !Lagged(s.items) && Numbered(log)
    requires ReplayOk(log, s) && Unbroken(log, s)
    ensures 0 <= Reached(s) < |log| && s.stage.rest[0] == log[Reached(s)] && s.sentSeq <= Reached(s)
    ensures Unbroken(log, ReplayOne(s)) && ReplayOk(log, ReplayOne(s)) && !Lagged(ReplayOne(s).items)
  {
    ReplayNext(log, s);
    DeliveredOne(s.items, Event(s.stage.rest[0]));
    StretchOne(log, Base(s), Reached(s));
  }

  lemma ReplayEnds(h: Hub, s: Stream)
    requires Inv(World(h, s)) && s.stage.Replaying? && s.stage.rest == []
    ensures Inv(World(h, s.(stage := Following)))
  {
  }

  lemma ReplayContinues(log: seq<Frame>, s: Stream)
    requires Unbroken(log, s) && TailOk(s) && !Lagged(s.items) && s.items != [] && s.items[|s.items| - 1].Event?
    requires InOrder(log, s.items, s.sentSeq)
    ensures s.sentSeq == Reached(s)
  {
    var most := s.items[..|s.items| - 1];
    DeliveredOne(most, s.items[|s.items| - 1]);
    assert s.items == most + [s.items[|s.items| - 1]];
  }

  lemma ReplayItems(log: seq<Frame>, s: Stream, f: Frame)
    requires InOrder(log, s.items, s.sentSeq) && Announced(s.items) && TailOk(s) && Unbroken(log, s) && !Lagged(s.items)
    requires f in log && f.seqNo == Reached(s) + 1 > s.sentSeq
    ensures InOrder(log, s.items + [Event(f)], f.seqNo) && Announced(s.items + [Event(f)])
  {
    OrderOne(log, s.items, s.sentSeq, f);
    if s.items != [] && s.items[|s.items| - 1].Event? {
      ReplayContinues(log, s);
    }
    AnnounceOne(s.items, Event(f));
  }

  lemma ReplaySends(h: Hub, s: Stream)
    requires Inv(World(h, s)) && s.stage.Replaying? && s.stage.rest != []
    ensures Inv(World(h, ReplayOne(s)))
  {
    var f, t := s.stage.rest[0], ReplayOne(s);
    ReplayOneUnbroken(Log(h), s);
    assert f.seqNo == Reached(s) + 1 && t.sentSeq == f.seqNo && t.items == s.items + [Event(f)];
    ReplayItems(Log(h), s, f);
  }

  lemma ReplayOneKeeps(w: World)
    requires Inv(w)
    ensures Inv(Step(w, ReplaysOne))
  {
    if w.stream.stage.Replaying? {
      if w.stream.stage.rest == [] {
        ReplayEnds(w.hub, w.stream);
      } else {
        ReplaySends(w.hub, w.stream);
      }
    }
  }

  lemma ReceiveUnbroken(log: seq<Frame>, s: Stream, f: Frame)
    requires s.stage.Following? && !Lagged(s.items) && Numbered(log)
    requires ReplayOk(log, s) && Unbroken(log, s) && s.start <= s.cursor < |log| && f == log[s.cursor]
    ensures f.seqNo <= s.sentSeq ==> Unbroken(log, Skip(s))
    ensures f.seqNo > s.sentSeq ==>
              Unbroken(log, Deliver(s, f))
  {
    DeliveredOne(s.items, Event(f));
    if f.seqNo > s.sentSeq {
      StretchOne(log, Base(s), s.cursor);
    }
  }

  lemma LagKeeps(h: Hub, s: Stream, oldest: nat)
    requires Inv(World(h, s)) && s.stage.Following? && s.cursor <= oldest <= |h.wire|
    ensures Inv(World(h, Lag(s, oldest)))
  {
  }

  lemma SkipKeeps(h: Hub, s: Stream)
    requires Inv(World(h, s)) && s.stage.Following? && s.cursor < |h.wire| && s.cursor + 1 <= s.sentSeq
    ensures Inv(World(h, Skip(s)))
  {
    if !Lagged(s.items) {
      ReceiveUnbroken(Log(h), s, Log(h)[s.cursor]);
    }
  }

  lemma DeliverItems(log: seq<Frame>, s: Stream, f: Frame)
    requires InOrder(log, s.items, s.sentSeq) && Announced(s.items) && TailOk(s) && s.stage.Following?
    requires f in log && f.seqNo == s.cursor + 1 > s.sentSeq
    ensures InOrder(log, Deliver(s, f).items, f.seqNo) && Announced(Deliver(s, f).items) && TailOk(Deliver(s, f))
  {
  }

  lemma DeliverKeeps(h: Hub, s: Stream, f: Frame)
    requires Inv(World(h, s)) && s.stage.Following? && s.cursor < |h.wire| && f == h.wire[s.cursor]
    requires f.seqNo == s.cursor + 1 > s.sentSeq
    ensures Inv(World(h, Deliver(s, f)))
  {
    var log := Log(h);
    assert f == log[s.cursor];
    DeliverItems(log, s, f);
    if Lagged(s.items) {
      DeliveredOne(s.items, Event(f));
    } else {
      ReceiveUnbroken(log, s, f);
    }
  }

  lemma NextFrame(h: Hub, cursor: nat)
    requires HubOk(h) && cursor < |h.wire|
    ensures h.wire[cursor].seqNo == cursor + 1
  {
    assert h.wire[cursor] == Log(h)[cursor];
  }

  lemma FollowKeeps(h: Hub, s: Stream)
    requires Inv(World(h, s)) && s.stage.Following? && s.cursor < |h.wire|
    ensures Inv(World(h, Receive(h, s)))
  {
    NextFrame(h, s.cursor);
    if |h.wire| - s.cursor > RING {
      LagKeeps(h, s, |h.wire| - RING);
    } else if s.cursor + 1 <= s.sentSeq {
      SkipKeeps(h, s);
    } else {
      DeliverKeeps(h, s, h.wire[s.cursor]);
    }
  }

  lemma ReceiveKeeps(w: World)
    requires Inv(w)
    ensures Inv(Step(w, Receives))
  {
    if w.stream.stage.Following? && w.stream.cursor < |w.hub.wire| {
      FollowKeeps(w.hub, w.stream);
    }
  }

  lemma StepKeepsInv(w: World, a: Action)
    requires Inv(w)
    ensures Inv(Step(w, a))
  {
    match a
    case PumpStamps(data) =>
      PumpKeepsHub(w.hub, data);
      LogGrows(w.hub, Stamp(w.hub, data), w.stream);
    case PumpPushes =>
      PumpKeepsHub(w.hub, 0);
      LogGrows(w.hub, Push(w.hub), w.stream);
    case PumpSends =>
      PumpKeepsHub(w.hub, 0);
      LogGrows(w.hub, Send(w.hub), w.stream);
    case Subscribes(last) => OpenKeeps(w, last);
    case ReadsCounter => OpenKeeps(w, None);
    case ReadsRing => ReadRingKeeps(w);
    case ReplaysOne => ReplayOneKeeps(w);
    case Receives => ReceiveKeeps(w);
  }

  lemma {:induction false} RunInv(boot: nat, actions: seq<Action>)
    ensures Inv(Run(boot, actions))
  {
    if actions != [] {
      RunInv(boot, actions[..|actions| - 1]);
      StepKeepsInv(Run(boot, actions[..|actions| - 1]), actions[|actions| - 1]);
    }
  }

  // ---- Over every run -------------------------------------------------------------------------

  /** Numbers go up, and each frame is the one logged under its number. */
  predicate Ascending(log: seq<Frame>, d: seq<Frame>) {
    && (forall i, k :: 0 <= i < k < |d| ==> d[i].seqNo < d[k].seqNo)
    && (forall i :: 0 <= i < |d| ==> 0 < d[i].seqNo <= |log| && d[i] == log[d[i].seqNo - 1])
  }

  lemma OrderMeans(log: seq<Frame>, items: seq<Item>, sentSeq: nat)
    requires Numbered(log) && InOrder(log, items, sentSeq)
    ensures Ascending(log, Delivered(items))
  {
    var d := Delivered(items);
    forall i | 0 <= i < |d| ensures 0 < d[i].seqNo <= |log| && d[i] == log[d[i].seqNo - 1] {
      LoggedUnderItsNumber(log, d[i]);
    }
  }

  /** Whatever the resume outcome and however often it lags, a stream's numbers only go up. */
  lemma StreamIsInOrder(boot: nat, actions: seq<Action>)
    ensures var w := Run(boot, actions); Ascending(Log(w.hub), Delivered(w.stream.items))
  {
    RunInv(boot, actions);
    var w := Run(boot, actions);
    OrderMeans(Log(w.hub), w.stream.items, w.stream.sentSeq);
  }

  lemma LoggedUnderItsNumber(log: seq<Frame>, f: Frame)
    requires Numbered(log) && f in log
    ensures 0 < f.seqNo <= |log| && f == log[f.seqNo - 1]
  {
  }

  /** A hole between two events is never silent: a lag notice stands between them. */
  lemma HolesAreAnnounced(boot: nat, actions: seq<Action>, i: nat)
    requires var items := Run(boot, actions).stream.items;
             i + 1 < |items| && items[i].Event? && items[i + 1].Event?
    ensures var items := Run(boot, actions).stream.items;
            items[i + 1].frame.seqNo == items[i].frame.seqNo + 1
  {
    RunInv(boot, actions);
  }

  /**
   * A stream that resumed from an id without a reset, and saw no lag notice, has been written every frame after
   * that id up to its place on the wire, and beyond it up to the end of what was replayed.
   */
  lemma ResumeMissesNothing(boot: nat, actions: seq<Action>, id: EventId, i: nat)
    requires var s := Run(boot, actions).stream;
             s.stage.Following? && s.last == Some(id) && s.outcome != Reset && !Lagged(s.items)
    requires var s := Run(boot, actions).stream;
             id.seqNo <= i && (i < s.cursor || (s.outcome.Frames? && i < id.seqNo + |s.outcome.frames|))
    ensures var w := Run(boot, actions);
            i < |Log(w.hub)| && Log(w.hub)[i] in Delivered(w.stream.items)
  {
    RunInv(boot, actions);
    var w := Run(boot, actions);
    var s := w.stream;
    assert Delivered(s.items) == Log(w.hub)[Base(s)..Reached(s)];
    InSlice(Delivered(s.items), Log(w.hub), Base(s), Reached(s), i);
  }

  /** When the ring is read, the resume is refused exactly in the cases of ResetExactlyWhen. */
  lemma ResetInEveryRun(boot: nat, actions: seq<Action>, id: EventId)
    requires var s := Run(boot, actions).stream; s.stage.Looked? && s.last == Some(id)
    ensures var w := Run(boot, actions);
            Step(w, ReadsRing).stream.outcome == Reset
            <==> id.boot != w.hub.boot || id.seqNo > w.stream.stage.highest || Uncovered(w.hub, id.seqNo)
                 || (w.hub.ring == [] && id.seqNo == 0 && w.stream.stage.highest == 1)
  {
    RunInv(boot, actions);
    var w := Run(boot, actions);
    ResetExactlyWhen(w.hub, w.stream.stage.highest, id);
  }

  lemma StretchReaches(log: seq<Frame>, base: nat, reached: nat, id: nat)
    requires Numbered(log) && base <= reached <= |log|
    ensures (exists f :: f in log[base..reached] && f.seqNo <= id) <==> base < Min(id, reached)
  {
    var d := log[base..reached];
    if base < Min(id, reached) {
      assert d[0] == log[base] && d[0] in d;
    }
    if f :| f in d && f.seqNo <= id {
      var i :| 0 <= i < |d| && d[i] == f;
      assert d[i] == log[base + i];
    }
  }

  /**
   * The number filter starts at zero when nothing is replayed, so it does not hide every frame the client already
   * has. A frame at or below the client's id is written again exactly when the resume was live, the frame
   * was still to be sent at subscription, and it has since been received.
   */
  lemma OldFrameRepeatsExactlyWhen(boot: nat, actions: seq<Action>, id: EventId)
    requires var s := Run(boot, actions).stream;
             s.stage.Following? && s.last == Some(id) && s.outcome != Reset && !Lagged(s.items)
    ensures var s := Run(boot, actions).stream;
            (exists f :: f in Delivered(s.items) && f.seqNo <= id.seqNo)
            <==> s.outcome.Live? && s.start < Min(id.seqNo, s.cursor)
  {
    RunInv(boot, actions);
    var w := Run(boot, actions);
    StretchReaches(Log(w.hub), Base(w.stream), Reached(w.stream), id.seqNo);
  }

  lemma RunOne(boot: nat, actions: seq<Action>, a: Action, before: World, after: World)
    requires Run(boot, actions) == before && Step(before, a) == after
    ensures Run(boot, actions + [a]) == after
  {
    assert (actions + [a])[..|actions|] == actions;
  }

  /** The hub between ringing its first frame and sending it, and after. */
  function Rung(boot: nat, f: Frame): Hub {
    Hub(boot, 2, [f], [], Ringed(f))
  }

  function Sent(boot: nat, f: Frame): Hub {
    Hub(boot, 2, [f], [f], Idle)
  }

  function Idling(stage: Stage, last: Option<EventId>): Stream {
    Stream(stage, last, 0, 0, Live, 0, [])
  }

  lemma FirstFrameRung(boot: nat, data: nat)
    ensures Run(boot, [] + [PumpStamps(data)] + [PumpPushes]) == World(Rung(boot, Frame(1, data)), Idling(Opening, None))
  {
    var f, idle := Frame(1, data), Idling(Opening, None);
    var stamped := Hub(boot, 2, [], [], Stamped(f));
    assert PushRing([], false, f) == [f];
    RunOne(boot, [], PumpStamps(data), Begin(boot), World(stamped, idle));
    RunOne(boot, [] + [PumpStamps(data)], PumpPushes, World(stamped, idle), World(Rung(boot, f), idle));
  }

  lemma NothingToReplay(boot: nat, f: Frame, last: EventId)
    requires f.seqNo == 1 && last == EventId(boot, 1)
    ensures ReadRing(Rung(boot, f), Idling(Looked(1), Some(last))) == Idling(Following, Some(last))
  {
    MissedIsTail([f], 0, 1);
  }

  lemma FirstFrameDelivered(boot: nat, f: Frame, last: Option<EventId>)
    requires f.seqNo == 1
    ensures Receive(Sent(boot, f), Idling(Following, last)).items == [Event(f)]
    ensures Receive(Sent(boot, f), Idling(Following, last)).last == last
  {
  }

  /** It does happen: an id learnt from the ring before its frame reached the fan-out. */
  lemma AFrameArrivesTwice(boot: nat, data: nat) returns (actions: seq<Action>)
    ensures var s := Run(boot, actions).stream;
            s.items == [Event(Frame(1, data))] && s.last == Some(EventId(boot, 1))
  {
    var id, f := Some(EventId(boot, 1)), Frame(1, data);
    var rung, sent := Rung(boot, f), Sent(boot, f);
    FirstFrameRung(boot, data);
    actions := [] + [PumpStamps(data)] + [PumpPushes];
    RunOne(boot, actions, Subscribes(id), World(rung, Idling(Opening, None)), World(rung, Idling(Subscribed, id)));
    actions := actions + [Subscribes(id)];
    RunOne(boot, actions, ReadsCounter, World(rung, Idling(Subscribed, id)), World(rung, Idling(Looked(1), id)));
    actions := actions + [ReadsCounter];
    NothingToReplay(boot, f, id.value);
    RunOne(boot, actions, ReadsRing, World(rung, Idling(Looked(1), id)), World(rung, Idling(Following, id)));
    actions := actions + [ReadsRing];
    assert [] + [f] == [f];
    RunOne(boot, actions, PumpSends, World(rung, Idling(Following, id)), World(sent, Idling(Following, id)));
    actions := actions + [PumpSends];
    FirstFrameDelivered(boot, f, id);
    RunOne(boot, actions, Receives, World(sent, Idling(Following, id)),
           World(sent, Receive(sent, Idling(Following, id))));
    actions := actions + [Receives];
  }
}
