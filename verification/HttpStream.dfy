/** `http_read_stream`: the loop that receives packets, strips the metadata, fills
    the ring under back-pressure and lets the audio device empty it. */
module HttpStream {
  import opened Bytes
  import opened IcyMeter
  import opened IcyAbort
  import opened StreamRing
  import opened IntakeCount

  class Reader {
    const metaInt: nat
    const offset: nat
    const ring: RingBuf

    var metaRead: int
    var metaStart: int
    var metaIgnored: int
    var messageLen: int
    var dataFlag: int

    /** Every packet taken from the socket. */
    ghost var packets: seq<seq<byte>>

    ghost predicate Supported() {
      metaInt == 0 || (metaInt >= STREAM_PACKET_SIZE - 1 && offset <= metaInt)
    }

    /** Every byte taken from the socket. */
    ghost function Received(): seq<byte>
      reads this`packets
    {
      Flatten(packets)
    }

    /** The audio that belongs in the ring. */
    ghost function Audio(): seq<byte>
      requires Supported()
      reads this`packets
    {
      if metaInt == 0 then Received()
      else AudioOf(metaInt, Phase.Audio(metaInt - offset), Received())
    }

    function Counters(): Meter
      reads this`metaRead, this`metaStart, this`metaIgnored
    {
      Meter(metaRead, metaStart, metaIgnored)
    }

    /** What the meter makes of the packets taken. */
    ghost function Metering(): Metered
      reads this`packets
    {
      Feed(metaInt, Meter(metaInt - offset, 0, 0), packets)
    }

    /** Packets with data in them, and metadata blocks below 96 bytes. */
    ghost predicate Sane()
      reads this`packets
    {
      && metaInt > 0 && Supported() && [] !in packets
      && BlocksUpTo(metaInt, Phase.Audio(metaInt - offset), Received(), 95)
    }

    /** Counters and ring are where the packets taken lead. */
    ghost predicate InStep()
      reads this`packets, this`metaRead, this`metaStart, this`metaIgnored, ring`written
      ensures InStep() ==> Packets(packets) && Metering().Fed?
    {
      Packets(packets) && Metering() == Fed(Counters(), ring.written)
    }

    ghost predicate Valid()
      reads this`packets, this`metaRead, this`metaStart, this`metaIgnored, this`dataFlag
      reads ring, ring.buf, ring.device
      ensures Valid() ==> ring.Valid() && InStep() && (ring.playmode == PLAY || ring.playmode == PRELOAD)
      ensures Valid() ==> 0 <= ring.Full() < OUT_BUF_SIZE - STREAM_PACKET_SIZE && 0 <= ring.tail < OUT_BUF_SIZE
    {
      && ring.Valid()
      && 0 <= ring.Full() < OUT_BUF_SIZE - STREAM_PACKET_SIZE
      && (ring.playmode == PLAY || ring.playmode == PRELOAD) && dataFlag >= 0
      && InStep()
    }

    /** How the loop stands, without the bytes in the ring. */
    ghost function Now(): Intake
      reads this`metaRead, this`metaStart, this`metaIgnored, this`messageLen, this`dataFlag
      reads ring, ring.device
    {
      Intake(Counters(), ring.Full(), ring.tail, ring.playmode == PLAY, dataFlag, messageLen)
    }

    constructor (metaInt: nat, offset: nat)
      ensures Valid() && fresh(ring) && fresh(ring.buf) && fresh(ring.device)
      ensures this.metaInt == metaInt && this.offset == offset && packets == []
      ensures Now() == Intake(Meter(metaInt - offset, 0, 0), 0, 0, false, 0, offset)
    {
      this.metaInt, this.offset := metaInt, offset;
      ring := new RingBuf();
      metaRead, metaStart, metaIgnored := metaInt - offset, 0, 0;
      messageLen, dataFlag := offset, 0;
      packets := [];
    }

    /** What one packet must do to the counters and the ring. */
    twostate predicate Handles(msg: seq<byte>, status: Status)
      reads this, ring, ring.buf, ring.device
    {
      && ring.Valid()
      && match Packet(metaInt, old(Counters()), msg)
         case Fed(m, audio) =>
           && status == Running && Counters() == m
           && ring.written == old(ring.written) + audio
         case Aborted => status == Abort && ring.written == old(ring.written) && Counters() == old(Counters())
         case Underrun => status == BelowBuffer && ring.written == old(ring.written) && Counters() == old(Counters())
    }

    /** The branches after a successful `recv`. */
    method Receive(msg: seq<byte>) returns (status: Status)
      requires ring.Valid() && ring.Full() + |msg| < OUT_BUF_SIZE
      modifies this`metaRead, this`metaStart, this`metaIgnored
      modifies ring`head, ring`written, ring.buf
      ensures Handles(msg, status)
    {
      status := Running;
      var n := |msg|;
      if metaInt == 0 {
        metaRead := metaRead - n;
        ring.Put(msg);
      } else if metaRead < n {
        if metaRead < 0 {
          return BelowBuffer;
        }
        StripBlock(msg);
      } else if metaRead > metaInt {
        if metaStart + metaIgnored > META_INSANE {
          return Abort;
        }
        SkipBlock(msg);
      } else {
        metaRead := metaRead - n;
        ring.Put(msg);
      }
    }

    /** The packet holds the length byte, at `metaRead`. */
    method StripBlock(msg: seq<byte>)
      requires metaInt > 0 && 0 <= metaRead < |msg|
      requires ring.Valid() && ring.Full() + |msg| < OUT_BUF_SIZE
      modifies this`metaRead, this`metaStart, this`metaIgnored
      modifies ring`head, ring`written, ring.buf
      ensures Handles(msg, Running)
    {
      hide RingBuf.Valid;
      var n := |msg|;
      var metaData := msg[metaRead];
      ghost var w := ring.written;
      var lead := msg[..metaRead];
      ring.Put(lead);
      if metaData == 0 {
        metaStart := metaRead + 1;
        metaRead := metaInt;
        if metaStart < n {
          PutTail(msg, w, lead);
        }
      } else {
        metaStart := metaRead + MetaLen(metaData) + 1;
        if metaStart <= n {
          metaRead := metaInt;
          if metaStart < n {
            PutTail(msg, w, lead);
          }
        } else {
          metaIgnored := n - metaRead;
          metaStart := metaStart - n;
          metaRead := metaInt + metaStart;
        }
      }
    }

    /** The packet starts inside a metadata block. */
    method SkipBlock(msg: seq<byte>)
      requires 0 < metaInt < metaRead && |msg| <= metaRead
      requires metaStart + metaIgnored <= META_INSANE
      requires ring.Valid() && ring.Full() + |msg| < OUT_BUF_SIZE
      modifies this`metaRead, this`metaStart, this`metaIgnored
      modifies ring`head, ring`written, ring.buf
      ensures Handles(msg, Running)
    {
      var n := |msg|;
      metaStart := metaRead - metaInt;
      if metaRead - n > metaInt {
        metaRead := metaRead - n;
        metaIgnored := metaIgnored + metaStart;
      } else {
        metaRead := metaRead - metaStart;
        ring.Put(msg[metaStart..]);
        metaRead := metaRead - (n - metaStart);
      }
    }

    /** The packet from `metaStart` on is audio; `lead` is what it had before. */
    method PutTail(msg: seq<byte>, ghost w: seq<byte>, ghost lead: seq<byte>)
      requires 0 <= metaStart <= |msg|
      requires ring.Valid() && ring.Full() + |msg| - metaStart < OUT_BUF_SIZE
      requires ring.written == w + lead
      modifies this`metaRead
      modifies ring`head, ring`written, ring.buf
      ensures ring.Valid() && metaRead == old(metaRead) - (|msg| - metaStart)
      ensures ring.written == w + (lead + msg[metaStart..])
    {
      var rest := msg[metaStart..];
      Regroup(w, lead, rest);
      ring.Put(rest);
      metaRead := metaRead - (|msg| - metaStart);
    }

    /** Counters and ring are at the point of the format where all bytes received end. */
    lemma StepInStep()
      requires Supported() && InStep()
      ensures ring.written == Audio()
      ensures metaInt > 0 ==>
                && metaRead >= 0
                && PhaseOf(metaInt, metaRead)
                   == PhaseAfter(metaInt, Phase.Audio(metaInt - offset), Received())
    {
      if metaInt == 0 {
        FeedPlain(Meter(metaInt - offset, 0, 0), packets);
      } else {
        FeedExact(metaInt, Meter(metaInt - offset, 0, 0), packets);
      }
    }

    /** One turn of the loop: play control, receive or wait, let the device play.  Its
        outcome is that of the turn that only counts; what that comes to is said of the
        socket, the ring and the device as well. */
    method Turn(e: Event) returns (status: Status, bufferFull: int)
      requires Valid() && IsEvent(e)
      modifies this, ring, ring.buf, ring.device
      ensures bufferFull == old(ring.Full())
      ensures status == TurnOf(metaInt, old(Now()), e).status
      ensures status == Running ==> Valid() && Now() == TurnOf(metaInt, old(Now()), e).now
      ensures packets == old(packets) + PacketsOf(old(Now()), e)
      ensures Packets(packets)
      ensures status == Running || status == WriteError ==> InStep()
      ensures status == Abort || status == BelowBuffer ==> Takes(old(Now()), e) && ring.written == old(ring.written)
      ensures status == Abort <==> Metering() == Aborted
      ensures status == BelowBuffer <==> Metering() == Underrun
      ensures status != Ended
      ensures Supported() ==> ring.device.taken <= Audio()
      ensures old(ring.device.taken) <= ring.device.taken <= ring.written && old(ring.written) <= ring.written
      ensures packets == old(packets)
                + if e.readable && e.recv.Got? && bufferFull < BACK_PRESSURE then [e.recv.data] else []
      ensures var plays := old(ring.playmode) == PLAY || bufferFull > 65536 || old(dataFlag) > 20;
              && (status == Running ==> (ring.playmode == PLAY <==> plays))
              && (!plays ==> ring.device.taken == old(ring.device.taken))
              && (plays && e.room1 >= OUT_BUF_SIZE && e.room2 >= OUT_BUF_SIZE && status == Running ==>
                    ring.Full() == 0)
      ensures status == Running ==>
                && messageLen == (if !e.readable then old(messageLen) else if e.recv.Got? then |e.recv.data| else -1)
                && ring.Full() <= bufferFull + STREAM_PACKET_SIZE
      ensures status == Running && bufferFull <= 65536 ==>
                dataFlag == if !e.readable then old(dataFlag) else if IdleTurn(e) then old(dataFlag) + 1 else 0
    {
      hide InStep, Polled, PlayedOn, RingBuf.Valid;
      TurnFacts(metaInt, Now(), e);
      bufferFull := ring.Occupancy();
      StartPlaying(bufferFull);
      status := Poll(e, bufferFull);
      ring.StillInside();
      if status == Running {
        status := Play(e);
        if Supported() {
          StepInStep();
        }
      }
    }

    /** Take a packet when there is room for it, or only look at the socket. */
    method Poll(e: Event, bufferFull: int) returns (status: Status)
      requires Valid() && IsEvent(e) && bufferFull == ring.Full()
      modifies this`metaRead, this`metaStart, this`metaIgnored, this`packets
      modifies this`messageLen, this`dataFlag
      modifies ring`head, ring`written, ring.buf
      ensures status == Polled(metaInt, old(Now()), e).status
      ensures status == Running ==> Valid() && Now() == Polled(metaInt, old(Now()), e).now
      ensures packets == old(packets) + PacketsOf(old(Now()), e)
      ensures Packets(packets) && ring.Valid()
      ensures status != Running ==> Takes(old(Now()), e) && ring.written == old(ring.written)
      ensures old(ring.written) <= ring.written
      ensures status != Running && Supported() ==> ring.written <= Audio()
      ensures status == Abort <==> Metering() == Aborted
      ensures status == BelowBuffer <==> Metering() == Underrun
      ensures status == Running || status == Abort || status == BelowBuffer
    {
      hide InStep, RingBuf.Valid, Packet;
      status := Running;
      if e.readable {
        if bufferFull < BACK_PRESSURE {
          if e.recv.Got? {
            messageLen := |e.recv.data|;
            dataFlag := if messageLen <= 0 then dataFlag + 1 else 0;
            status := TakePacket(e.recv.data);
          } else {
            messageLen := -1;
            dataFlag := dataFlag + 1;
          }
        } else {
          dataFlag := dataFlag + 1;
          messageLen := if e.recv.Got? then |e.recv.data| else -1;
        }
      }
    }

    /** The preload ends when the ring is half full, or after twenty idle turns. */
    method StartPlaying(bufferFull: int)
      requires Valid() && bufferFull == ring.Full()
      modifies ring`playmode, ring`tail
      ensures Valid() && Now() == Started(old(Now()))
    {
      if ring.playmode == PRELOAD && bufferFull > OUT_BUF_SIZE / 2 {
        ring.playmode := PLAY;
        ring.tail := 0;
      } else if ring.tail == 0 && dataFlag > 20 {
        ring.playmode := PLAY;
      }
    }

    /** One packet taken: the abort and an index below the buffer are the meter's. */
    method TakePacket(msg: seq<byte>) returns (status: Status)
      requires Valid() && |msg| <= STREAM_PACKET_SIZE && ring.Full() < BACK_PRESSURE
      modifies this`metaRead, this`metaStart, this`metaIgnored, this`packets
      modifies ring`head, ring`written, ring.buf
      ensures packets == old(packets) + [msg] && Packets(packets)
      ensures ring.Valid() && old(ring.written) <= ring.written
      ensures status != Running && Supported() ==> ring.written <= Audio()
      ensures match Packet(metaInt, old(Counters()), msg)
              case Fed(m, audio) =>
                && status == Running && Valid() && Counters() == m
                && ring.Full() == old(ring.Full()) + |audio|
              case Aborted => status == Abort && ring.written == old(ring.written) && Metering() == Aborted
              case Underrun => status == BelowBuffer && ring.written == old(ring.written) && Metering() == Underrun
    {
      hide RingBuf.Valid, Packet;
      PacketSize(metaInt, Counters(), msg);
      FeedAppend(metaInt, Meter(metaInt - offset, 0, 0), packets, msg);
      status := Receive(msg);
      packets := packets + [msg];
      if status != Running && Supported() {
        AudioGrows(old(packets), msg);
      }
    }

    /** `send_mpeg_data`; the status is WriteError exactly when a write of this turn
        fails. */
    method Play(e: Event) returns (status: Status)
      requires Valid()
      modifies ring`tail, ring.device
      ensures status == PlayedOn(old(Now()), e).status
      ensures status == Running ==> Valid() && Now() == PlayedOn(old(Now()), e).now
      ensures InStep() && (status == Running || status == WriteError)
      ensures ring.playmode != PLAY ==> ring.device.taken == old(ring.device.taken)
      ensures ring.playmode == PLAY ==>
                |ring.device.taken| == |old(ring.device.taken)| + Played(old(ring.tail), old(ring.Full()), e.room1, e.room2)
      ensures status == Running ==>
                ring.device.taken + ring.Contents() == old(ring.device.taken + ring.Contents())
      ensures old(ring.device.taken) <= ring.device.taken <= ring.written
    {
      hide InStep;
      var ok := ring.Drain(e.room1, e.room2);
      status := if ok then Running else WriteError;
    }

    /** The whole loop against a history of events.  How it ends and which packets it
        takes are those of the run that only counts.  Whatever the packets, the ring and
        the device do, the device got a prefix of the audio in the stream and the ring
        holds the rest; and packets with data in them and blocks below 96 bytes never
        meet the abort.  A device with room gets all but the preload and a packet. */
    method ReadStream(events: seq<Event>) returns (status: Status)
      requires Valid() && packets == [] && messageLen == offset
      requires AreEvents(events)
      modifies this, ring, ring.buf, ring.device
      ensures Ran(status, packets) == RunOf(metaInt, old(Now()), events)
      ensures status == Abort <==> Metering() == Aborted
      ensures status == BelowBuffer <==> Metering() == Underrun
      ensures status == Running || status == Ended ==>
                && Valid()
                && (Supported() ==> Audio() == ring.device.taken + ring.Contents())
      ensures Supported() ==> ring.device.taken <= Audio()
      ensures Supported() ==> status != BelowBuffer && (metaInt == 0 ==> status != Abort)
      ensures Sane() ==> status != Abort
      ensures status == Ended && NeverStopped(events) ==> |ring.Contents()| <= 1
      ensures RoomyEvents(events) && (status == Running || status == Ended) ==>
                |ring.Contents()| <= 65536 + STREAM_PACKET_SIZE
      ensures old(ring.playmode) == PRELOAD && old(dataFlag) == 0 && TooEarly(events) ==> ring.device.taken == []
      ensures AllBusy(events) ==> status != Ended
      ensures (exists i :: 0 <= i < |events| && events[i].stop) ==> status != Running
    {
      EmptyAtFirst();
      status := RunEvents(events);
      Concluded();
    }

    lemma EmptyAtFirst()
      requires Valid() && packets == []
      ensures ring.Full() == 0
    {
      ring.StillInside();
    }

    /** What holds of the packets taken, whatever stopped the run. */
    lemma Concluded()
      requires Packets(packets)
      ensures Supported() ==> Metering() != Underrun && (metaInt == 0 ==> Metering() != Aborted)
      ensures Sane() ==> Metering() != Aborted
    {
      if metaInt == 0 {
        FeedPlain(Meter(metaInt - offset, 0, 0), packets);
      } else if Supported() {
        FeedExact(metaInt, Meter(metaInt - offset, 0, 0), packets);
        if Sane() {
          SaneStream(metaInt, offset, packets);
        }
      }
    }

    /** The audio of the packets before the last one is a beginning of the audio. */
    lemma AudioGrows(before: seq<seq<byte>>, msg: seq<byte>)
      requires Supported() && packets == before + [msg] && Packets(packets)
      requires Feed(metaInt, Meter(metaInt - offset, 0, 0), before) == Fed(Counters(), ring.written)
      ensures ring.written <= Audio()
    {
      FlattenAppend(before, msg);
      assert forall i :: 0 <= i < |before| ==> before[i] == packets[i];
      if metaInt == 0 {
        FeedPlain(Meter(metaInt - offset, 0, 0), before);
      } else {
        FeedExact(metaInt, Meter(metaInt - offset, 0, 0), before);
        CutAnywhere(metaInt, Phase.Audio(metaInt - offset), Flatten(before), msg);
      }
    }

    /** Between turns the audio received is what was played and what is in the ring. */
    lemma AtRest()
      requires Valid()
      ensures |ring.Contents()| == ring.Full()
      ensures Supported() ==> Audio() == ring.device.taken + ring.Contents() && ring.device.taken <= Audio()
    {
      ring.StillInside();
      if Supported() {
        StepInStep();
      }
    }

    /** Nothing is to be played yet: the ring was never more than half full, and there were
        no 21 idle turns in a row. */
    ghost predicate TooEarly(events: seq<Event>)
      reads ring`written
    {
      |ring.written| <= 65536 && forall i :: 0 <= i < |events| ==> IdleRun(events[..i]) <= 20
    }

    /** The loop, from any point on. */
    method RunEvents(events: seq<Event>) returns (status: Status)
      requires Valid()
      requires AreEvents(events)
      modifies this, ring, ring.buf, ring.device
      ensures var r := RunOf(metaInt, old(Now()), events);
              status == r.status && packets == old(packets) + r.packets
      ensures Packets(packets)
      ensures status == Abort <==> Metering() == Aborted
      ensures status == BelowBuffer <==> Metering() == Underrun
      ensures status == Running || status == Ended ==>
                Valid() && (Supported() ==> Audio() == ring.device.taken + ring.Contents())
      ensures Supported() ==> ring.device.taken <= Audio()
      ensures status == Ended && NeverStopped(events) ==> |ring.Contents()| <= 1
      // Nothing is played too early, and all but the preload and a packet is played in time.
      ensures old(ring.playmode) == PRELOAD && old(dataFlag) == 0 && TooEarly(events) ==> ring.device.taken == []
      ensures old(ring.Full()) <= 65536 + STREAM_PACKET_SIZE && RoomyEvents(events) ==>
                status == Running || status == Ended ==> |ring.Contents()| <= 65536 + STREAM_PACKET_SIZE
      // The end comes when nothing is received any more, or the user stops, and not before.
      ensures |events| >= 23 && AllQuiet(events) ==>
                && (status == Ended || status == Abort || status == BelowBuffer)
                && (old(Between(metaInt, Counters())) || AllErrors(events) ==> status == Ended)
      ensures (exists i :: 0 <= i < |events| && events[i].stop) ==> status != Running
      ensures AllBusy(events) ==> status != Ended
    {
      hide InStep, TurnOf, PacketsOf, RunOf, Valid, RingBuf.Valid, RingBuf.Contents, Packets, Metering, Audio;
      hide Between, IdleRun, IdleTurn;
      status := Running;
      var i := 0;
      ghost var start, before := Now(), packets;
      ghost var early := ring.playmode == PRELOAD && dataFlag == 0;
      ghost var full := ring.Full();
      WhenQuiet(events);
      NothingYet(events);
      while i < |events|
        invariant 0 <= i <= |events|
        invariant status == Running && Valid()
        invariant RunOf(metaInt, start, events).status == RunOf(metaInt, Now(), events[i..]).status
        invariant before + RunOf(metaInt, start, events).packets
                  == packets + RunOf(metaInt, Now(), events[i..]).packets
        invariant early && |ring.written| <= 65536 && (forall j :: 0 <= j < i ==> IdleRun(events[..j]) <= 20) ==>
                    ring.playmode == PRELOAD && ring.device.taken == [] && dataFlag == IdleRun(events[..i])
        invariant full <= 65536 + STREAM_PACKET_SIZE && RoomyEvents(events) ==>
                    ring.Full() <= 65536 + STREAM_PACKET_SIZE
        invariant forall j :: 0 <= j < i ==> !events[j].stop
      {
        var bufferFull;
        RunAt(metaInt, Now(), events, i);
        NothingMore(metaInt, Now(), events[i]);
        IdleRunAt(events, i);
        status, bufferFull := Turn(events[i]);
        if status != Running {
          return;
        }
        if !((messageLen > 0 || bufferFull > 1) && !events[i].stop) {
          AtRest();
          return Ended;
        }
        i := i + 1;
      }
      RunOut(metaInt, Now(), events);
      AtRest();
    }

    /** What the run that only counts says of quiet events. */
    lemma WhenQuiet(events: seq<Event>)
      requires Valid()
      ensures |events| >= 23 && AllQuiet(events) ==>
                var r := RunOf(metaInt, Now(), events).status;
                && (r == Ended || r == Abort || r == BelowBuffer)
                && (Between(metaInt, Counters()) || AllErrors(events) ==> r == Ended)
    {
      if |events| >= 23 && AllQuiet(events) {
        QuietRunEnds(metaInt, Now(), events);
      }
    }

    /** In preload the device has taken nothing. */
    lemma NothingYet(events: seq<Event>)
      requires Valid()
      ensures ring.playmode == PRELOAD ==> ring.device.taken == []
      ensures IdleRun(events[..0]) == 0 && events[0..] == events
    {
    }
  }
}
