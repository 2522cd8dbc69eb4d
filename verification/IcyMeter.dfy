/** The ICY/Shoutcast metadata meter of `http_read_stream`, as a function of one
    received packet, and its relation to the stream format.

    The format: `metaInt` bytes of audio, one length byte L, 16*L bytes of
    metadata, and so on for ever.  The code keeps one counter, `metaRead`, that is
    "audio left" up to `metaInt` and "`metaInt` + metadata left" above it. */
module IcyMeter {
  import opened Bytes

  const STREAM_PACKET_SIZE: nat := 1448
  const META_INSANE: nat := 4000

  // ----- the stream format -----

  /** Where a stream stands: inside the audio, or inside a metadata block. */
  datatype Phase = Audio(left: nat) | Meta(left: nat)

  /** The length byte counts blocks of sixteen; `char` is unsigned on the target. */
  function MetaLen(length: byte): nat { 16 * (length as int) }

  /** The audio in `s`, read from `ph` onwards. */
  ghost function AudioOf(metaInt: nat, ph: Phase, s: seq<byte>): seq<byte>
    decreases |s|, if ph.Meta? then 1 else 0
  {
    match ph
    case Audio(left) =>
      if |s| <= left then s
      else s[..left] + AudioOf(metaInt, Meta(MetaLen(s[left])), s[left + 1..])
    case Meta(left) =>
      if |s| < left then [] else AudioOf(metaInt, Audio(metaInt), s[left..])
  }

  /** Where the stream stands after `s`. */
  ghost function PhaseAfter(metaInt: nat, ph: Phase, s: seq<byte>): Phase
    decreases |s|, if ph.Meta? then 1 else 0
  {
    match ph
    case Audio(left) =>
      if |s| <= left then Audio(left - |s|)
      else PhaseAfter(metaInt, Meta(MetaLen(s[left])), s[left + 1..])
    case Meta(left) =>
      if |s| < left then Meta(left - |s|) else PhaseAfter(metaInt, Audio(metaInt), s[left..])
  }

  /** Cutting a stream anywhere changes neither its audio nor where it ends. */
  lemma {:induction false} CutAnywhere(metaInt: nat, ph: Phase, a: seq<byte>, b: seq<byte>)
    ensures AudioOf(metaInt, ph, a + b)
         == AudioOf(metaInt, ph, a) + AudioOf(metaInt, PhaseAfter(metaInt, ph, a), b)
    ensures PhaseAfter(metaInt, ph, a + b) == PhaseAfter(metaInt, PhaseAfter(metaInt, ph, a), b)
    decreases |a|, if ph.Meta? then 1 else 0
  {
    match ph
    case Audio(left) =>
      if |a| <= left {
        CutInAudio(metaInt, left, a, b);
      } else {
        var meta := Meta(MetaLen(a[left]));
        AtLengthByte(metaInt, left, a);
        AtLengthByte(metaInt, left, a + b);
        assert (a + b)[..left] == a[..left];
        assert (a + b)[left + 1..] == a[left + 1..] + b;
        CutAnywhere(metaInt, meta, a[left + 1..], b);
        Regroup(a[..left], AudioOf(metaInt, meta, a[left + 1..]),
                AudioOf(metaInt, PhaseAfter(metaInt, meta, a[left + 1..]), b));
      }
    case Meta(left) =>
      if |a| < left {
        if |a + b| >= left {
          assert (a + b)[left..] == b[left - |a|..];
        }
      } else {
        assert (a + b)[left..] == a[left..] + b;
        CutAnywhere(metaInt, Audio(metaInt), a[left..], b);
      }
  }

  lemma AtLengthByte(metaInt: nat, left: nat, s: seq<byte>)
    requires left < |s|
    ensures var meta := Meta(MetaLen(s[left]));
            && AudioOf(metaInt, Audio(left), s) == s[..left] + AudioOf(metaInt, meta, s[left + 1..])
            && PhaseAfter(metaInt, Audio(left), s) == PhaseAfter(metaInt, meta, s[left + 1..])
  {
  }

  lemma CutInAudio(metaInt: nat, left: nat, a: seq<byte>, b: seq<byte>)
    requires |a| <= left
    ensures AudioOf(metaInt, Audio(left), a + b) == a + AudioOf(metaInt, Audio(left - |a|), b)
    ensures PhaseAfter(metaInt, Audio(left), a + b) == PhaseAfter(metaInt, Audio(left - |a|), b)
  {
    if |a + b| > left {
      var k := left - |a|;
      AtLengthByte(metaInt, left, a + b);
      AtLengthByte(metaInt, k, b);
      assert (a + b)[..left] == a + b[..k];
      assert (a + b)[left + 1..] == b[k + 1..];
      Regroup(a, b[..k], AudioOf(metaInt, Meta(MetaLen(b[k])), b[k + 1..]));
    }
  }

  lemma {:induction false} AudioNoLonger(metaInt: nat, ph: Phase, s: seq<byte>)
    ensures |AudioOf(metaInt, ph, s)| <= |s|
    ensures ph.Audio? && |s| > ph.left ==> |AudioOf(metaInt, ph, s)| < |s|
    decreases |s|, if ph.Meta? then 1 else 0
  {
    match ph
    case Audio(left) =>
      if |s| > left {
        AudioNoLonger(metaInt, Meta(MetaLen(s[left])), s[left + 1..]);
      }
    case Meta(left) =>
      if |s| >= left {
        AudioNoLonger(metaInt, Audio(metaInt), s[left..]);
      }
  }

  // ----- the code's meter -----

  datatype Meter = Meter(metaRead: int, metaStart: int, metaIgnored: int)

  /** What one packet does: the audio handed on and the new counters, the `abort()`
      of a block that looks insane, or an index below the receive buffer. */
  datatype Metered = Fed(meter: Meter, audio: seq<byte>) | Aborted | Underrun

  ghost function PhaseOf(metaInt: nat, metaRead: nat): Phase {
    if metaRead <= metaInt then Audio(metaRead) else Meta(metaRead - metaInt)
  }

  /** One received packet, branch by branch as the code takes it. */
  function Packet(metaInt: nat, m: Meter, msg: seq<byte>): Metered {
    var n := |msg|;
    if metaInt == 0 then Fed(m.(metaRead := m.metaRead - n), msg)
    else if m.metaRead < n then
      if m.metaRead < 0 then Underrun
      else
        var metaData := msg[m.metaRead];
        var metaStart := m.metaRead + MetaLen(metaData) + 1;
        if metaStart < n then
          Fed(Meter(metaInt - (n - metaStart), metaStart, m.metaIgnored),
              msg[..m.metaRead] + msg[metaStart..])
        else if metaStart == n then
          Fed(Meter(metaInt, metaStart, m.metaIgnored), msg[..m.metaRead])
        else
          Fed(Meter(metaInt + (metaStart - n), metaStart - n, n - m.metaRead), msg[..m.metaRead])
    else if m.metaRead > metaInt then
      if m.metaStart + m.metaIgnored > META_INSANE then Aborted
      else
        var metaStart := m.metaRead - metaInt;
        if m.metaRead - n > metaInt then
          Fed(Meter(m.metaRead - n, metaStart, m.metaIgnored + metaStart), [])
        else
          Fed(Meter(metaInt - (n - metaStart), metaStart, m.metaIgnored), msg[metaStart..])
    else Fed(m.(metaRead := m.metaRead - n), msg)
  }

  /** First byte of `msg` after the metadata block that `msg` touches first. */
  function FirstBlockEnd(metaInt: nat, metaRead: nat, msg: seq<byte>): nat {
    if metaRead > metaInt then metaRead - metaInt
    else if metaRead < |msg| then metaRead + 1 + MetaLen(msg[metaRead])
    else |msg|
  }

  /** The packet holds at most one length byte that matters: what follows its first
      metadata block is all audio. */
  predicate OneBlock(metaInt: nat, metaRead: nat, msg: seq<byte>) {
    |msg| <= FirstBlockEnd(metaInt, metaRead, msg) + metaInt
  }

  /** The packet's outcome is right for the format exactly when it holds one block,
      and then the counter stands where the format stands. */
  ghost predicate Exact(metaInt: nat, m: Meter, msg: seq<byte>)
    requires m.metaRead >= 0
  {
    var ph := PhaseOf(metaInt, m.metaRead);
    match Packet(metaInt, m, msg)
    case Fed(m', audio) =>
      && (audio == AudioOf(metaInt, ph, msg) <==> OneBlock(metaInt, m.metaRead, msg))
      && (OneBlock(metaInt, m.metaRead, msg) ==>
            m'.metaRead >= 0 && PhaseOf(metaInt, m'.metaRead) == PhaseAfter(metaInt, ph, msg))
      && |audio| <= |msg|
    case Aborted => m.metaRead > metaInt && m.metaStart + m.metaIgnored > META_INSANE
    case Underrun => false
  }

  lemma PacketExact(metaInt: nat, m: Meter, msg: seq<byte>)
    requires metaInt > 0 && m.metaRead >= 0
    ensures Exact(metaInt, m, msg)
  {
    if m.metaRead <= metaInt && m.metaRead < |msg| {
      LengthByteExact(metaInt, m, msg);
    } else if m.metaRead > metaInt {
      if m.metaRead < |msg| {
        LateBlock(metaInt, m, msg);
      } else if m.metaRead - metaInt <= |msg| {
        AudioNoLonger(metaInt, Audio(metaInt), msg[m.metaRead - metaInt..]);
      }
    }
  }

  /** The packet with the length byte in it. */
  lemma LengthByteExact(metaInt: nat, m: Meter, msg: seq<byte>)
    requires 0 < metaInt && 0 <= m.metaRead <= metaInt && m.metaRead < |msg|
    ensures Exact(metaInt, m, msg)
  {
    var read := m.metaRead;
    var meta, end := MetaLen(msg[read]), FirstBlockEnd(metaInt, read, msg);
    var rest := msg[read + 1..];
    assert AudioOf(metaInt, Audio(read), msg) == msg[..read] + AudioOf(metaInt, Meta(meta), rest);
    assert PhaseAfter(metaInt, Audio(read), msg) == PhaseAfter(metaInt, Meta(meta), rest);
    if end <= |msg| {
      var more := msg[end..];
      assert rest[meta..] == more;
      assert AudioOf(metaInt, Meta(meta), rest) == AudioOf(metaInt, Audio(metaInt), more);
      assert PhaseAfter(metaInt, Meta(meta), rest) == PhaseAfter(metaInt, Audio(metaInt), more);
      AudioNoLonger(metaInt, Audio(metaInt), more);
      if end == |msg| {
        assert msg[..read] + more == msg[..read];
      }
    }
  }

  /** A packet that reaches past a whole audio stretch while metadata is still
      being skipped: the code hands on more bytes than there is audio. */
  lemma LateBlock(metaInt: nat, m: Meter, msg: seq<byte>)
    requires 0 < metaInt < m.metaRead < |msg|
    ensures var p := Packet(metaInt, m, msg);
            && p.Fed? && |msg| >= |p.audio| > |AudioOf(metaInt, Meta(m.metaRead - metaInt), msg)|
            && !OneBlock(metaInt, m.metaRead, msg)
  {
    var skip := m.metaRead - metaInt;
    var rest := msg[skip..];
    var meta := MetaLen(msg[m.metaRead]);
    var after := rest[metaInt + 1..];
    assert after == msg[m.metaRead + 1..];
    assert rest[metaInt] == msg[m.metaRead];
    assert AudioOf(metaInt, Meta(skip), msg) == AudioOf(metaInt, Audio(metaInt), rest);
    assert AudioOf(metaInt, Audio(metaInt), rest) == rest[..metaInt] + AudioOf(metaInt, Meta(meta), after);
    if meta <= |after| {
      AudioNoLonger(metaInt, Audio(metaInt), after[meta..]);
    }
  }

  lemma PacketSize(metaInt: nat, m: Meter, msg: seq<byte>)
    ensures var p := Packet(metaInt, m, msg);
            p.Fed? ==> |p.audio| <= |msg|
  {
  }

  // ----- runs -----

  ghost predicate Packets(msgs: seq<seq<byte>>) {
    forall i :: 0 <= i < |msgs| ==> |msgs[i]| <= STREAM_PACKET_SIZE
  }

  /** The audio handed on over a list of packets. */
  ghost function Feed(metaInt: nat, m: Meter, msgs: seq<seq<byte>>): Metered
    decreases |msgs|
  {
    if msgs == [] then Fed(m, [])
    else match Packet(metaInt, m, msgs[0])
      case Fed(m', audio) =>
        (match Feed(metaInt, m', msgs[1..])
         case Fed(m'', more) => Fed(m'', audio + more)
         case stop => stop)
      case stop => stop
  }

  /** One packet more. */
  lemma {:induction false} FeedAppend(metaInt: nat, m: Meter, msgs: seq<seq<byte>>, last: seq<byte>)
    ensures Feed(metaInt, m, msgs + [last])
         == match Feed(metaInt, m, msgs)
            case Fed(m', audio) =>
              (match Packet(metaInt, m', last)
               case Fed(m'', more) => Fed(m'', audio + more)
               case stop => stop)
            case stop => stop
    decreases |msgs|
  {
    var all := msgs + [last];
    if msgs == [] {
      assert all[0] == last && all[1..] == [];
      var p := Packet(metaInt, m, last);
      if p.Fed? {
        assert Feed(metaInt, p.meter, all[1..]) == Fed(p.meter, []);
        assert p.audio + [] == p.audio && [] + p.audio == p.audio;
      }
    } else {
      assert all[0] == msgs[0] && all[1..] == msgs[1..] + [last];
      var p := Packet(metaInt, m, msgs[0]);
      if p.Fed? {
        FeedAppend(metaInt, p.meter, msgs[1..], last);
        var r := Feed(metaInt, p.meter, msgs[1..]);
        if r.Fed? && Packet(metaInt, r.meter, last).Fed? {
          Regroup(p.audio, r.audio, Packet(metaInt, r.meter, last).audio);
        }
      }
    }
  }

  /** Without metadata everything is audio. */
  lemma {:induction false} FeedPlain(m: Meter, msgs: seq<seq<byte>>)
    ensures var r := Feed(0, m, msgs);
            r.Fed? && r.audio == Flatten(msgs)
    decreases |msgs|
  {
    if msgs != [] {
      FeedPlain(Packet(0, m, msgs[0]).meter, msgs[1..]);
    }
  }

  ghost function Start(metaInt: nat): Meter { Meter(metaInt, 0, 0) }

  /** Every packet the socket can deliver holds one block, once the audio stretch
      is at least a packet less its length byte. */
  lemma PacketsFit(metaInt: nat, metaRead: nat, msg: seq<byte>)
    requires metaInt >= STREAM_PACKET_SIZE - 1
    requires |msg| <= STREAM_PACKET_SIZE
    ensures OneBlock(metaInt, metaRead, msg)
  {
  }

  lemma {:induction false} FeedExact(metaInt: nat, m: Meter, msgs: seq<seq<byte>>)
    requires metaInt >= STREAM_PACKET_SIZE - 1
    requires m.metaRead >= 0 && Packets(msgs)
    ensures var r := Feed(metaInt, m, msgs);
            && r != Underrun
            && (r.Fed? ==>
                  && r.audio == AudioOf(metaInt, PhaseOf(metaInt, m.metaRead), Flatten(msgs))
                  && r.meter.metaRead >= 0
                  && PhaseOf(metaInt, r.meter.metaRead)
                     == PhaseAfter(metaInt, PhaseOf(metaInt, m.metaRead), Flatten(msgs)))
    decreases |msgs|
  {
    if msgs != [] {
      PacketsFit(metaInt, m.metaRead, msgs[0]);
      PacketExact(metaInt, m, msgs[0]);
      CutAnywhere(metaInt, PhaseOf(metaInt, m.metaRead), msgs[0], Flatten(msgs[1..]));
      var p := Packet(metaInt, m, msgs[0]);
      if p.Fed? {
        FeedExact(metaInt, p.meter, msgs[1..]);
      }
    }
  }

  ghost predicate Faithful(metaInt: nat, msgs: seq<seq<byte>>) {
    var r := Feed(metaInt, Start(metaInt), msgs);
    r.Fed? ==> r.audio == AudioOf(metaInt, Audio(metaInt), Flatten(msgs))
  }

  /** A stretch of audio, then a packet that crosses two length bytes. */
  lemma ShortIntervalFails(metaInt: nat)
    requires 0 < metaInt < STREAM_PACKET_SIZE - 1
    ensures Packets([Zeros(metaInt), Zeros(STREAM_PACKET_SIZE)])
    ensures !Faithful(metaInt, [Zeros(metaInt), Zeros(STREAM_PACKET_SIZE)])
  {
    var a, b := Zeros(metaInt), Zeros(STREAM_PACKET_SIZE);
    var msgs := [a, b];
    assert msgs[1..] == [b];
    var none: seq<seq<byte>> := [];
    assert [b][1..] == none;
    assert Flatten(msgs) == a + b by { assert Flatten([b]) == b + Flatten(none); }
    var start := Start(metaInt);
    assert Packet(metaInt, start, a) == Fed(Meter(0, 0, 0), a);
    var p := Packet(metaInt, Meter(0, 0, 0), b);
    PacketExact(metaInt, Meter(0, 0, 0), b);
    assert p.Fed? && !OneBlock(metaInt, 0, b);
    assert Feed(metaInt, p.meter, none) == Fed(p.meter, []);
    assert Feed(metaInt, Meter(0, 0, 0), [b]) == Fed(p.meter, p.audio + []);
    assert Feed(metaInt, start, msgs) == Fed(p.meter, a + (p.audio + []));
    CutAnywhere(metaInt, Audio(metaInt), a, b);
    assert PhaseAfter(metaInt, Audio(metaInt), a) == Audio(0);
    CancelPrefix(a, p.audio + [], AudioOf(metaInt, Audio(0), b));
    assert p.audio + [] == p.audio;
  }

  /** The metadata filter is right on every run exactly for intervals of at least
      STREAM_PACKET_SIZE - 1 bytes. */
  lemma StripExact(metaInt: nat)
    requires metaInt > 0
    ensures (forall msgs :: Packets(msgs) ==> Faithful(metaInt, msgs))
            <==> metaInt >= STREAM_PACKET_SIZE - 1
  {
    if metaInt >= STREAM_PACKET_SIZE - 1 {
      forall msgs | Packets(msgs) ensures Faithful(metaInt, msgs) {
        FeedExact(metaInt, Start(metaInt), msgs);
      }
    } else {
      ShortIntervalFails(metaInt);
    }
  }

  /** When a block does not end in the packet of its length byte, the next packet
      meets the insanity guard exactly when the block is 4000 bytes or more. */
  lemma SecondPieceAborts(metaInt: nat, m: Meter, first: seq<byte>, second: seq<byte>)
    requires metaInt >= STREAM_PACKET_SIZE - 1 && |second| <= STREAM_PACKET_SIZE
    requires 0 <= m.metaRead < |first| && m.metaRead <= metaInt
    requires m.metaRead + 1 + MetaLen(first[m.metaRead]) > |first|
    ensures var p := Packet(metaInt, m, first);
            && p.Fed?
            && (Packet(metaInt, p.meter, second) == Aborted <==> MetaLen(first[m.metaRead]) >= META_INSANE)
  {
  }
}
