/**
 * The resumable event stream: one pump stamps, rings and sends each event as three separate steps, while a
 * connection subscribes, reads the counter, reads the ring, replays and then follows the live fan-out.
 */
module EventStream {
  import opened Prelude

  const RING: nat := 1024

  datatype Frame = Frame(seqNo: nat, data: nat)

  datatype EventId = EventId(boot: nat, seqNo: nat)

  datatype Pump = Idle | Stamped(frame: Frame) | Ringed(frame: Frame)

  /** `wire` is every frame ever handed to the fan-out; a receiver is a position in it. */
  datatype Hub = Hub(boot: nat, next: nat, ring: seq<Frame>, wire: seq<Frame>, pump: Pump)

  datatype Replay = Live | Frames(frames: seq<Frame>) | Reset

  function Fresh(boot: nat): Hub {
    Hub(boot, 1, [], [], Idle)
  }

  function Stamp(h: Hub, data: nat): Hub {
    if h.pump.Idle? then h.(next := h.next + 1, pump := Stamped(Frame(h.next, data))) else h
  }

  function Push(h: Hub): Hub {
    if h.pump.Stamped? then h.(ring := PushRing(h.ring, |h.ring| == RING, h.pump.frame), pump := Ringed(h.pump.frame)) else h
  }

  function Send(h: Hub): Hub {
    if h.pump.Ringed? then h.(wire := h.wire + [h.pump.frame], pump := Idle) else h
  }

  /** Every frame that has reached the ring, whether or not it has left it since. */
  function Log(h: Hub): seq<Frame> {
    h.wire + if h.pump.Ringed? then [h.pump.frame] else []
  }

  predicate Numbered(log: seq<Frame>) {
    forall i :: 0 <= i < |log| ==> log[i].seqNo == i + 1
  }

  predicate HubOk(h: Hub) {
    && Numbered(Log(h))
    && h.ring == LastOf(Log(h), RING)
    && h.next == |Log(h)| + (if h.pump.Stamped? then 2 else 1)
    && (h.pump.Stamped? ==> h.pump.frame.seqNo == |Log(h)| + 1)
  }

  lemma PumpKeepsHub(h: Hub, data: nat)
    requires HubOk(h)
    ensures HubOk(Stamp(h, data)) && HubOk(Push(h)) && HubOk(Send(h))
    ensures Log(h) <= Log(Stamp(h, data)) && Log(h) <= Log(Push(h)) && Log(h) <= Log(Send(h))
    ensures h.wire <= Stamp(h, data).wire && h.wire <= Push(h).wire && h.wire <= Send(h).wire
  {
    if h.pump.Stamped? {
      assert Log(Push(h)) == Log(h) + [h.pump.frame];
    }
    if h.pump.Ringed? {
      assert Log(Send(h)) == Log(h);
    }
  }

  // ---- Resolving a Last-Event-ID -----------------------------------------------------------

  function Missed(ring: seq<Frame>, last: nat): (frames: seq<Frame>)
    ensures forall f :: f in frames ==> f.seqNo > last
  {
    if ring == [] then []
    else Missed(ring[..|ring| - 1], last) + if ring[|ring| - 1].seqNo > last then [ring[|ring| - 1]] else []
  }

  /** `replay`, with the counter read first and the ring read later. */
  function Resolve(boot: nat, highest: nat, ring: seq<Frame>, last: Option<EventId>): Replay {
    match last
    case None => Live
    case Some(id) =>
      if id.boot != boot then Reset
      else if id.seqNo > highest then Reset
      else if ring == [] then if id.seqNo == highest then Live else Reset
      else if ring[0].seqNo > id.seqNo + 1 then Reset
      else var frames := Missed(ring, id.seqNo);
           if frames == [] then Live else Frames(frames)
  }

  lemma TailSnoc(ring: seq<Frame>, k: nat)
    requires k < |ring|
    ensures ring[..|ring| - 1][k..] + [ring[|ring| - 1]] == ring[k..]
  {
  }

  lemma {:induction false} MissedIsTail(ring: seq<Frame>, base: nat, last: nat)
    requires base <= last && forall i :: 0 <= i < |ring| ==> ring[i].seqNo == base + i + 1
    ensures Missed(ring, last) == if last - base < |ring| then ring[last - base..] else []
  {
    if ring != [] {
      var most, r := ring[..|ring| - 1], ring[|ring| - 1];
      MissedIsTail(most, base, last);
      if last - base < |ring| {
        TailSnoc(ring, last - base);
        assert Missed(most, last) == most[last - base..];
      }
    }
  }

  /** A frame after the id is missing from the ring: nothing served from the ring would be a clean resume. */
  predicate Uncovered(h: Hub, last: nat) {
    exists i :: last <= i < |Log(h)| && Log(h)[i] !in h.ring
  }

  lemma RingHolds(h: Hub, i: nat)
    requires HubOk(h) && i < |Log(h)|
    ensures Log(h)[i] in h.ring <==> |Log(h)| - i <= RING
  {
  }

  lemma UncoveredMeans(h: Hub, last: nat)
    requires HubOk(h)
    ensures Uncovered(h, last) <==> |Log(h)| - last > RING
  {
    if |Log(h)| - last > RING {
      RingHolds(h, last);
    } else if i :| last <= i < |Log(h)| && Log(h)[i] !in h.ring {
      RingHolds(h, i);
    }
  }

  /**
   * The client is told to reset exactly when its id is from another process, was never issued, or has a
   * successor the ring no longer holds; and in one harmless case, an id of zero quoted while the very first
   * event is stamped but not yet in the ring.
   */
  lemma ResetExactlyWhen(h: Hub, highest: nat, id: EventId)
    requires HubOk(h) && highest <= |Log(h)| + 1
    ensures Resolve(h.boot, highest, h.ring, Some(id)) == Reset
       <==> id.boot != h.boot || id.seqNo > highest || Uncovered(h, id.seqNo)
            || (h.ring == [] && id.seqNo == 0 && highest == 1)
  {
    UncoveredMeans(h, id.seqNo);
    if h.ring != [] {
      assert h.ring[0] == Log(h)[if |Log(h)| <= RING then 0 else |Log(h)| - RING];
    }
  }

  function Evicted(h: Hub): nat {
    if |Log(h)| <= RING then 0 else |Log(h)| - RING
  }

  lemma RingNumbers(h: Hub)
    requires HubOk(h)
    ensures |h.ring| == |Log(h)| - Evicted(h)
    ensures forall i :: 0 <= i < |h.ring| ==> h.ring[i].seqNo == Evicted(h) + i + 1
  {
  }

  lemma RingTail(h: Hub, last: nat)
    requires HubOk(h) && Evicted(h) <= last < |Log(h)|
    ensures |h.ring| == |Log(h)| - Evicted(h) && h.ring[last - Evicted(h)..] == Log(h)[last..]
  {
  }

  /** Otherwise it is given exactly the frames after its id, in order. */
  lemma ResolvedFrames(h: Hub, highest: nat, id: EventId)
    requires HubOk(h) && Resolve(h.boot, highest, h.ring, Some(id)) != Reset
    ensures var r := Resolve(h.boot, highest, h.ring, Some(id));
            if id.seqNo < |Log(h)| then r == Frames(Log(h)[id.seqNo..]) else r == Live
  {
    RingNumbers(h);
    if h.ring != [] {
      MissedIsTail(h.ring, Evicted(h), id.seqNo);
      if id.seqNo < |Log(h)| {
        RingTail(h, id.seqNo);
      }
    }
  }

  class EventHub {
    const boot: nat
    var next: nat
    var ring: seq<Frame>
    var wire: seq<Frame>
    var pump: Pump

    ghost function State(): Hub
      reads this
    {
      Hub(boot, next, ring, wire, pump)
    }

    constructor (boot: nat)
      ensures State() == Fresh(boot) && HubOk(State())
    {
      this.boot, next, ring, wire, pump := boot, 1, [], [], Idle;
    }

    method StampNext(data: nat)
      requires pump.Idle?
      modifies this
      ensures State() == Stamp(old(State()), data)
    {
      pump := Stamped(Frame(next, data));
      next := next + 1;
    }

    method PushNext()
      requires pump.Stamped?
      modifies this
      ensures State() == Push(old(State()))
    {
      var frame := pump.frame;
      if |ring| == RING {
        ring := ring[1..];
      }
      ring := ring + [frame];
      pump := Ringed(frame);
    }

    method SendNext()
      requires pump.Ringed?
      modifies this
      ensures State() == Send(old(State()))
    {
      wire := wire + [pump.frame];
      pump := Idle;
    }

    /** `publish_raw`: the frame gets the next number, enters the ring and then the fan-out. */
    method PublishRaw(data: nat)
      requires pump.Idle? && HubOk(State())
      modifies this
      ensures HubOk(State()) && pump.Idle?
      ensures wire == old(wire) + [Frame(|old(wire)| + 1, data)]
      ensures ring == LastOf(wire, RING)
    {
      PumpKeepsHub(State(), data);
      StampNext(data);
      PumpKeepsHub(State(), data);
      PushNext();
      PumpKeepsHub(State(), data);
      SendNext();
    }

    /** `replay`, when no publication falls between its two reads. */
    method ResolveReplay(last: Option<EventId>) returns (r: Replay)
      ensures r == Resolve(boot, if next == 0 then 0 else next - 1, ring, last)
    {
      if last.None? {
        return Live;
      }
      var id := last.value;
      if id.boot != boot {
        return Reset;
      }
      var highest := if next == 0 then 0 else next - 1;
      if id.seqNo > highest {
        return Reset;
      }
      if ring == [] {
        return if id.seqNo == highest then Live else Reset;
      }
      if ring[0].seqNo > id.seqNo + 1 {
        return Reset;
      }
      var frames := [];
      for i := 0 to |ring|
        invariant frames == Missed(ring[..i], id.seqNo)
      {
        assert ring[..i + 1][..i] == ring[..i];
        if ring[i].seqNo > id.seqNo {
          frames := frames + [ring[i]];
        }
      }
      assert ring[..|ring|] == ring;
      r := if frames == [] then Live else Frames(frames);
    }
  }
}
