/** The loop of `http_read_stream` without the bytes in the ring: which packets it
    takes, when it plays, when it ends and how it stops, counted from what the socket
    and the audio device answer. */
module IntakeCount {
  import opened Bytes
  import opened IcyMeter
  import opened IcyAbort
  import opened StreamRing

  /** Receiving stops while the ring holds this much. */
  const BACK_PRESSURE: int := OUT_BUF_SIZE - 2 * STREAM_PACKET_SIZE

  datatype Recv = Got(data: seq<byte>) | RecvError

  /** What the world does during one turn of the loop: whether the socket is
      readable, what it delivers, how many bytes each of the two device writes can
      take (negative: the write fails), and whether the user stops the stream. */
  datatype Event = Event(readable: bool, recv: Recv, room1: int, room2: int, stop: bool)

  predicate IsEvent(e: Event) {
    e.recv.Got? ==> |e.recv.data| <= STREAM_PACKET_SIZE
  }

  /** How a run stands: it goes on, it ended, or it met one of the stops the model
      keeps apart: the `abort()`, an index below the buffer, a failed device write. */
  datatype Status = Running | Ended | Abort | BelowBuffer | WriteError

  /** The counters, the ring by its tail and its unread bytes, whether it plays, the
      idle turns, and the last answer of `recv`. */
  datatype Intake = Intake(meter: Meter, full: int, tail: int, playing: bool, idle: int, len: int)

  datatype Turned = Turned(status: Status, now: Intake)

  /** A packet is taken when the ring is not under back-pressure. */
  predicate Takes(s: Intake, e: Event) {
    e.readable && e.recv.Got? && s.full < BACK_PRESSURE
  }

  ghost function PacketsOf(s: Intake, e: Event): seq<seq<byte>> {
    if Takes(s, e) then [e.recv.data] else []
  }

  /** The preload ends when the ring is more than half full, or after twenty idle turns. */
  ghost function Started(s: Intake): Intake {
    s.(playing := s.playing || s.full > OUT_BUF_SIZE / 2 || s.idle > 20)
  }

  ghost function Polled(metaInt: nat, s: Intake, e: Event): Turned {
    if !e.readable then Turned(Running, s)
    else
      var len := if e.recv.Got? then |e.recv.data| else -1;
      var next := s.(len := len, idle := if Takes(s, e) && len > 0 then 0 else s.idle + 1);
      if !Takes(s, e) then Turned(Running, next)
      else
        match Packet(metaInt, s.meter, e.recv.data)
        case Fed(m, audio) => Turned(Running, next.(meter := m, full := s.full + |audio|))
        case Aborted => Turned(Abort, next)
        case Underrun => Turned(BelowBuffer, next)
  }

  ghost function PlayedOn(s: Intake, e: Event): Turned {
    if !s.playing then Turned(Running, s)
    else if Fails(s.tail, s.full, e.room1, e.room2) then Turned(WriteError, s)
    else
      var n := Played(s.tail, s.full, e.room1, e.room2);
      Turned(Running, s.(full := s.full - n, tail := MovedOn(s.tail, n)))
  }

  ghost function TurnOf(metaInt: nat, s: Intake, e: Event): Turned {
    var t := Polled(metaInt, Started(s), e);
    if t.status == Running then PlayedOn(t.now, e) else t
  }

  /** A turn that receives nothing does not fill the ring. */
  lemma NothingMore(metaInt: nat, s: Intake, e: Event)
    requires 0 <= s.full < OUT_BUF_SIZE && 0 <= s.tail < OUT_BUF_SIZE
    ensures var t := TurnOf(metaInt, s, e);
            t.status == Running && t.now.len <= 0 ==> t.now.full <= s.full
  {
    if Takes(s, e) {
      PacketSize(metaInt, s.meter, e.recv.data);
    }
  }

  /** What a turn that goes on does, in terms of the socket and the device alone. */
  lemma TurnFacts(metaInt: nat, s: Intake, e: Event)
    requires 0 <= s.full < OUT_BUF_SIZE - STREAM_PACKET_SIZE && 0 <= s.tail < OUT_BUF_SIZE && IsEvent(e)
    ensures var t, plays := TurnOf(metaInt, s, e), s.playing || s.full > 65536 || s.idle > 20;
            && (t.status != Running ==> t.status == Abort || t.status == BelowBuffer || t.status == WriteError)
            && (t.status == WriteError ==> plays && (e.room1 < 0 || e.room2 < 0))
            && (t.status == Abort || t.status == BelowBuffer ==> e.readable && e.recv.Got?)
            && (t.status == Running ==>
                  && (t.now.playing <==> plays)
                  && (plays && e.room1 >= OUT_BUF_SIZE && e.room2 >= OUT_BUF_SIZE ==> t.now.full == 0)
                  && 0 <= t.now.full <= s.full + STREAM_PACKET_SIZE
                  && 0 <= t.now.tail < OUT_BUF_SIZE
                  && t.now.len == (if !e.readable then s.len else if e.recv.Got? then |e.recv.data| else -1)
                  && (!e.readable ==> t.now.idle == s.idle)
                  && (e.readable && (e.recv.RecvError? || e.recv.data == []) ==>
                        t.now.idle == s.idle + 1 && t.now.full <= s.full)
                  && (e.readable && e.recv.Got? && e.recv.data != [] && s.full < 128176 ==> t.now.idle == 0)
                  && (e.readable && s.full >= 128176 ==> t.now.idle == s.idle + 1))
  {
    hide Packet, Played, Fails;
    if Takes(s, e) {
      PacketSize(metaInt, s.meter, e.recv.data);
    }
    var polled := Polled(metaInt, Started(s), e).now;
    PlayedAnswers(polled.tail, polled.full, e.room1, e.room2);
  }

  /** The loop goes on after the turn that found `s`. */
  predicate GoesOn(s: Intake, len: int, e: Event) {
    (len > 0 || s.full > 1) && !e.stop
  }

  datatype Ran = Ran(status: Status, packets: seq<seq<byte>>)

  /** The whole run: how it ends, and which packets it took. */
  ghost function RunOf(metaInt: nat, s: Intake, events: seq<Event>): Ran
    decreases |events|
  {
    if events == [] then Ran(Running, [])
    else
      var e, t := events[0], TurnOf(metaInt, s, events[0]);
      if t.status != Running then Ran(t.status, PacketsOf(s, e))
      else if !GoesOn(s, t.now.len, e) then Ran(Ended, PacketsOf(s, e))
      else
        var r := RunOf(metaInt, t.now, events[1..]);
        Ran(r.status, PacketsOf(s, e) + r.packets)
  }

  /** The run at event `i`, which a turn left in `t`. */
  lemma RunAt(metaInt: nat, s: Intake, events: seq<Event>, i: nat)
    requires i < |events|
    ensures var e, t, r := events[i], TurnOf(metaInt, s, events[i]), RunOf(metaInt, s, events[i..]);
            && (t.status != Running ==> r == Ran(t.status, PacketsOf(s, e)))
            && (t.status == Running && !GoesOn(s, t.now.len, e) ==> r == Ran(Ended, PacketsOf(s, e)))
            && (t.status == Running && GoesOn(s, t.now.len, e) ==>
                  var more := RunOf(metaInt, t.now, events[i + 1..]);
                  r == Ran(more.status, PacketsOf(s, e) + more.packets))
  {
    assert events[i..][0] == events[i] && events[i..][1..] == events[i + 1..];
  }

  lemma RunOut(metaInt: nat, s: Intake, events: seq<Event>)
    ensures RunOf(metaInt, s, events[|events|..]) == Ran(Running, [])
  {
  }

  ghost predicate AreEvents(events: seq<Event>) {
    forall i :: 0 <= i < |events| ==> IsEvent(events[i])
  }

  ghost predicate NeverStopped(events: seq<Event>) {
    forall i :: 0 <= i < |events| ==> !events[i].stop
  }

  /** The device takes all it is offered. */
  ghost predicate RoomyEvents(events: seq<Event>) {
    forall i :: 0 <= i < |events| ==> events[i].room1 >= OUT_BUF_SIZE && events[i].room2 >= OUT_BUF_SIZE
  }

  /** The socket always has data, and the user does not stop the stream. */
  ghost predicate AllBusy(events: seq<Event>) {
    forall i :: 0 <= i < |events| ==>
      events[i].readable && events[i].recv.Got? && events[i].recv.data != [] && !events[i].stop
  }

  ghost predicate AllQuiet(events: seq<Event>) {
    forall i :: 0 <= i < |events| ==> Quiet(events[i])
  }

  ghost predicate AllErrors(events: seq<Event>) {
    forall i :: 0 <= i < |events| ==> events[i].recv.RecvError?
  }

  // ----- the end of a stream -----

  /** The socket is readable and has nothing to give: an error, or the end. */
  predicate IdleTurn(e: Event) {
    e.readable && (e.recv.RecvError? || e.recv.data == [])
  }

  /** Nothing comes, the device takes all, and the user does not stop the stream. */
  predicate Quiet(e: Event) {
    IdleTurn(e) && e.room1 >= OUT_BUF_SIZE && e.room2 >= OUT_BUF_SIZE && !e.stop
  }

  /** How many idle turns came in a row at the end; turns with a silent socket do not
      count either way. */
  ghost function IdleRun(events: seq<Event>): nat {
    if events == [] then 0
    else
      var before, e := IdleRun(events[..|events| - 1]), events[|events| - 1];
      if !e.readable then before else if IdleTurn(e) then before + 1 else 0
  }

  lemma IdleRunAt(events: seq<Event>, i: nat)
    requires i < |events|
    ensures IdleRun(events[..i + 1])
            == if !events[i].readable then IdleRun(events[..i])
               else if IdleTurn(events[i]) then IdleRun(events[..i]) + 1 else 0
  {
    assert events[..i + 1][..i] == events[..i];
  }

  ghost predicate InRange(s: Intake) {
    0 <= s.full < OUT_BUF_SIZE - STREAM_PACKET_SIZE && 0 <= s.tail < OUT_BUF_SIZE && s.idle >= 0
  }

  /** How many quiet turns it takes at most to play the rest and end. */
  ghost function TurnsToEnd(s: Intake): int {
    if s.full <= 1 then 1
    else if s.playing || s.full > 65536 || s.idle > 20 then 2
    else 23 - s.idle
  }

  /** Between two metadata blocks, or in a stream without metadata. */
  predicate Between(metaInt: nat, m: Meter) {
    metaInt == 0 || 0 <= m.metaRead <= metaInt
  }

  lemma QuietTurn(metaInt: nat, s: Intake, e: Event)
    requires InRange(s) && Quiet(e)
    ensures var t := TurnOf(metaInt, s, e);
            && (t.status == Running || t.status == Abort || t.status == BelowBuffer)
            && (Between(metaInt, s.meter) || e.recv.RecvError? ==> t.status == Running)
            && (t.status == Running ==>
                  InRange(t.now) && t.now.len <= 0 && TurnsToEnd(t.now) <= (if s.full <= 1 then 1 else TurnsToEnd(s) - 1))
            && (t.status == Running && Between(metaInt, s.meter) ==> Between(metaInt, t.now.meter))
  {
    TurnFacts(metaInt, s, e);
  }

  /** Quiet turns play what is left and end the stream, unless it stopped inside a
      metadata block and meets the guard there. */
  lemma {:induction false} QuietRunEnds(metaInt: nat, s: Intake, events: seq<Event>)
    requires InRange(s) && |events| >= TurnsToEnd(s)
    requires AllQuiet(events)
    ensures var r := RunOf(metaInt, s, events).status;
            && (r == Ended || r == Abort || r == BelowBuffer)
            && (Between(metaInt, s.meter) || AllErrors(events) ==> r == Ended)
    decreases |events|
  {
    hide TurnOf;
    var t := TurnOf(metaInt, s, events[0]);
    QuietTurn(metaInt, s, events[0]);
    if t.status == Running && GoesOn(s, t.now.len, events[0]) {
      QuietRunEnds(metaInt, t.now, events[1..]);
    }
  }

  /** Packets with data in them, with blocks below 96 bytes, are all taken in without
      the abort. */
  lemma SaneStream(metaInt: nat, offset: nat, packets: seq<seq<byte>>)
    requires metaInt >= STREAM_PACKET_SIZE - 1 && offset <= metaInt
    requires Packets(packets) && [] !in packets
    requires BlocksUpTo(metaInt, Audio(metaInt - offset), Flatten(packets), 95)
    ensures Feed(metaInt, Meter(metaInt - offset, 0, 0), packets).Fed?
  {
    SmallBlocksPass(metaInt, Meter(metaInt - offset, 0, 0), packets);
  }
}
