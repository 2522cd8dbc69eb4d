/** Room for AC-3: when a chunk is taken, refused or met by the `abort()`, counted
    without looking at the bytes in the ring. */
module Ac3Space {
  import opened Bytes
  import opened Ac3Scan
  import opened PcmRing

  const BSIZE: nat := 32768

  /** The guard of `a52_decode_data` wants this many bytes of room for each byte. */
  const GUARD: nat := 14

  /** The gap that `ac3_add` leaves. */
  const GAP: nat := 7

  const FRAME_PCM: nat := BLOCKS * BLOCK_BYTES

  /** The parser and the decoder. */
  datatype Codec = Codec(sync: Syncinfo, decode: Decoder)

  ghost predicate IsCodec(z: Codec) {
    IsSyncinfo(z.sync) && IsDecoder(z.decode)
  }

  // ----- how much a chunk decodes to -----

  ghost function PcmSize(z: Codec, s: seq<byte>): nat
    requires IsCodec(z)
  {
    |Pcm(z.decode, Frames(z.sync, s))|
  }

  /** The PCM of the frames that `chunk` completes behind `fed`. */
  ghost function Completed(z: Codec, fed: seq<byte>, chunk: seq<byte>): int
    requires IsCodec(z)
  {
    PcmSize(z, fed + chunk) - PcmSize(z, fed)
  }

  lemma {:induction false} BlocksSize(blocks: seq<seq<byte>>)
    requires forall i :: 0 <= i < |blocks| ==> |blocks[i]| == BLOCK_BYTES
    ensures |Flatten(blocks)| == BLOCK_BYTES * |blocks|
  {
    if blocks != [] {
      BlocksSize(blocks[1..]);
    }
  }

  /** More frames decode to more, a whole number of blocks for each. */
  lemma {:induction false} PcmGrows(decode: Decoder, x: seq<seq<byte>>, y: seq<seq<byte>>)
    requires IsDecoder(decode)
    ensures |Pcm(decode, x)| <= |Pcm(decode, x + y)| <= |Pcm(decode, x)| + FRAME_PCM * |y|
    ensures |Pcm(decode, x)| == |Pcm(decode, x + y)| || |Pcm(decode, x)| + BLOCK_BYTES <= |Pcm(decode, x + y)|
    decreases |y|
  {
    if y == [] {
      assert x + y == x;
    } else {
      var front, last := y[..|y| - 1], y[|y| - 1];
      assert x + y == (x + front) + [last];
      PcmGrows(decode, x, front);
      PcmAppend(decode, x + front, last);
      BlocksSize(decode(x + front, last));
    }
  }

  /** What `more` frames add to the PCM of `frames`. */
  ghost function Sound(decode: Decoder, frames: seq<seq<byte>>, more: seq<seq<byte>>): int {
    |Pcm(decode, frames + more)| - |Pcm(decode, frames)|
  }

  lemma NoSound(decode: Decoder, frames: seq<seq<byte>>)
    ensures Sound(decode, frames, []) == 0
  {
    assert frames + [] == frames;
  }

  lemma CompletedIsSound(z: Codec, fed: seq<byte>, piece: seq<byte>)
    requires IsCodec(z)
    ensures Completed(z, fed, piece)
         == Sound(z.decode, Frames(z.sync, fed), Frames(z.sync, Pending(z.sync, fed) + piece))
  {
    ScanResumes(z.sync, fed, piece);
  }

  lemma CompletedIs(z: Codec, fed: seq<byte>, chunk: seq<byte>)
    requires IsCodec(z)
    ensures var p := Completed(z, fed, chunk);
            && (p == 0 || p >= BLOCK_BYTES)
            && p <= FRAME_PCM * |Frames(z.sync, Pending(z.sync, fed) + chunk)|
  {
    ScanResumes(z.sync, fed, chunk);
    PcmGrows(z.decode, Frames(z.sync, fed), Frames(z.sync, Pending(z.sync, fed) + chunk));
  }

  lemma CompletedAdds(z: Codec, fed: seq<byte>, a: seq<byte>, b: seq<byte>)
    requires IsCodec(z)
    ensures Completed(z, fed, a + b) == Completed(z, fed, a) + Completed(z, fed + a, b)
  {
    Regroup(fed, a, b);
  }

  // ----- one chunk -----

  /** Adding `p` bytes, block by block, meets the `abort()` of a ring with `free` bytes
      of room. */
  predicate Overflows(p: int, free: int) {
    0 < p && free < p + GAP
  }

  /** A chunk met piece by piece overflows exactly when one of its pieces does. */
  lemma OverflowsOn(z: Codec, fed: seq<byte>, a: seq<byte>, b: seq<byte>, c: seq<byte>, free: int)
    requires IsCodec(z) && !Overflows(Completed(z, fed, a), free)
    ensures var now := Overflows(Completed(z, fed + a, b), free - Completed(z, fed, a));
            && (now ==> Overflows(Completed(z, fed, a + b + c), free))
            && (Overflows(Completed(z, fed, a + b), free) <==> now)
  {
    CompletedAdds(z, fed, a, b);
    CompletedAdds(z, fed, a + b, c);
    CompletedIs(z, fed, a);
    CompletedIs(z, fed + a, b);
    CompletedIs(z, fed + (a + b), c);
  }

  lemma NothingCompletes(z: Codec, fed: seq<byte>, free: int)
    requires IsCodec(z)
    ensures Completed(z, fed, []) == 0 && !Overflows(0, free)
  {
    assert fed + [] == fed;
  }

  /** Room in the device for the two writes of each of the two flushes of a call. */
  datatype Device = Device(a: int, b: int, c: int, d: int)

  /** A device that takes all it is offered. */
  predicate Roomy(dev: Device) {
    dev.a >= AC3_SIZE && dev.b >= AC3_SIZE
  }

  datatype Answer = Accepted | Refused | Abort

  ghost function Room(q: Queue, dev: Device): int {
    AC3_SIZE - Flushed(q, dev.a, dev.b).used
  }

  /** What a chunk of `len` bytes that completes `p` bytes of PCM meets. */
  ghost function AnswerTo(q: Queue, len: nat, p: int, dev: Device): Answer {
    if Room(q, dev) < len * GUARD then Refused
    else if Overflows(p, Room(q, dev)) then Answer.Abort
    else Accepted
  }

  ghost function QueueAfter(q: Queue, len: nat, p: int, dev: Device): Queue {
    var first := Flushed(q, dev.a, dev.b);
    if AnswerTo(q, len, p, dev).Accepted? then Flushed(first.(used := first.used + p), dev.c, dev.d) else first
  }

  /** A device that takes all it is offered leaves nothing in the ring. */
  lemma AllIsPlayed(q: Queue, len: nat, p: nat, dev: Device)
    requires IsQueue(q) && AnswerTo(q, len, p, dev).Accepted? && dev.c >= AC3_SIZE && dev.d >= AC3_SIZE
    ensures QueueAfter(q, len, p, dev).used == 0
  {
    FlushedIsQueue(q, dev.a, dev.b);
    var first := Flushed(q, dev.a, dev.b);
    FlushedIsQueue(first.(used := first.used + p), dev.c, dev.d);
  }

  // ----- what the guard is worth -----

  /** Passing the guard rules the abort out, however full the ring is, if and only if the
      chunk completes nothing, or no more than the guard reckons with. */
  lemma GuardProtects(len: nat, p: nat)
    requires len <= BSIZE
    ensures (forall free :: len * GUARD <= free <= AC3_SIZE ==> !Overflows(p, free))
            <==> p == 0 || p + GAP <= len * GUARD
  {
    if 0 < p && p + GAP > len * GUARD {
      assert Overflows(p, len * GUARD);
    }
  }

  ghost predicate GuardSuffices(z: Codec)
    requires IsCodec(z)
  {
    forall fed, chunk, free ::
      |chunk| <= BSIZE && |chunk| * GUARD <= free <= AC3_SIZE ==> !Overflows(Completed(z, fed, chunk), free)
  }

  /** The byte that completes the first sound. */
  lemma {:induction false} FirstSound(z: Codec, s: seq<byte>) returns (fed: seq<byte>, last: byte)
    requires IsCodec(z) && PcmSize(z, s) > 0
    ensures PcmSize(z, fed) == 0 && Completed(z, fed, [last]) > 0
    decreases |s|
  {
    fed, last := s[..|s| - 1], s[|s| - 1];
    assert s == fed + [last];
    if PcmSize(z, fed) > 0 {
      fed, last := FirstSound(z, fed);
    }
  }

  lemma SoundNeedsMore(z: Codec, s: seq<byte>)
    requires IsCodec(z) && PcmSize(z, s) > 0
    ensures !GuardSuffices(z)
  {
    var fed, last := FirstSound(z, s);
    var chunk := [last];
    CompletedIs(z, fed, chunk);
    assert |chunk| * GUARD == GUARD;
    assert Overflows(Completed(z, fed, chunk), GUARD);
  }

  /** The guard rules the abort out for every chunk if and only if nothing ever sounds:
      one byte that completes a block asks for 14 bytes of room and needs 1031. */
  lemma GuardExact(z: Codec)
    requires IsCodec(z)
    ensures GuardSuffices(z) <==> forall s :: PcmSize(z, s) == 0
  {
    if GuardSuffices(z) {
      forall s ensures PcmSize(z, s) == 0 {
        if PcmSize(z, s) > 0 {
          SoundNeedsMore(z, s);
        }
      }
    }
  }

  /** A short read that brings the last byte of a frame with sound passes the guard and
      aborts, when the device takes nothing and the room is below what the frame needs. */
  lemma LastByteAborts(z: Codec, frame: seq<byte>, free: nat)
    requires IsCodec(z) && |frame| > HEADER && z.sync(frame[..HEADER]) == |frame|
    requires GUARD <= free < |Flatten(z.decode([], frame))| + GAP && free <= AC3_SIZE
    requires z.decode([], frame) != []
    ensures var fed, last := frame[..|frame| - 1], frame[|frame| - 1..];
            AnswerTo(Queue(0, AC3_SIZE - free), 1, Completed(z, fed, last), Device(0, 0, 0, 0)) == Answer.Abort
  {
    var fed, last := frame[..|frame| - 1], frame[|frame| - 1..];
    assert fed + last == frame && fed[..HEADER] == frame[..HEADER];
    WholeFrame(z.sync, frame);
    assert [] + [frame] == [frame];
    PcmAppend(z.decode, [], frame);
    BlocksSize(z.decode([], frame));
    assert Frames(z.sync, fed) == [];
    assert Completed(z, fed, last) == |Flatten(z.decode([], frame))|;
  }

  /** Frames that are not short. */
  ghost predicate FramesFrom(z: Codec, m: nat) {
    forall h :: |h| == HEADER ==> z.sync(h) == 0 || z.sync(h) >= m
  }

  lemma OneMore(k: nat, m: nat, size: int)
    requires k * m <= size
    ensures (k + 1) * m <= size + m
  {
  }

  lemma {:induction false} FewFrames(z: Codec, s: seq<byte>, m: nat)
    requires IsCodec(z) && FramesFrom(z, m)
    ensures |Frames(z.sync, s)| * m <= |s|
    ensures |Pending(z.sync, s)| < MAX_FRAME
    decreases |s|
  {
    if |s| >= HEADER {
      var n := z.sync(s[..HEADER]);
      if n == 0 {
        FewFrames(z, s[1..], m);
      } else if n <= |s| {
        FewFrames(z, s[n..], m);
        OneMore(|Frames(z.sync, s[n..])|, m, |s| - n);
      }
    }
  }

  lemma FewCompleted(z: Codec, fed: seq<byte>, chunk: seq<byte>, m: nat) returns (k: nat)
    requires IsCodec(z) && FramesFrom(z, m)
    ensures k * m < MAX_FRAME + |chunk| && Completed(z, fed, chunk) <= FRAME_PCM * k
  {
    CompletedIs(z, fed, chunk);
    var s := Pending(z.sync, fed) + chunk;
    FewFrames(z, fed, m);
    FewFrames(z, s, m);
    k := |Frames(z.sync, s)|;
  }

  /** On a full read the guard does rule the abort out when all frames have at least 489
      bytes. */
  lemma FullReadIsSafe(z: Codec, fed: seq<byte>, chunk: seq<byte>, free: int)
    requires IsCodec(z) && FramesFrom(z, 489) && |chunk| == BSIZE
    requires |chunk| * GUARD <= free
    ensures !Overflows(Completed(z, fed, chunk), free)
  {
    var k := FewCompleted(z, fed, chunk, 489);
    assert k <= 74;
  }

  /** An empty ring holds what any read completes when all frames have at least 426
      bytes. */
  lemma EmptyRingIsSafe(z: Codec, fed: seq<byte>, chunk: seq<byte>)
    requires IsCodec(z) && FramesFrom(z, 426) && |chunk| <= BSIZE
    ensures !Overflows(Completed(z, fed, chunk), AC3_SIZE)
  {
    var k := FewCompleted(z, fed, chunk, 426);
    assert k <= 85;
  }

  // ----- a whole run -----

  /** What was fed, the chunk that was refused, and the ring. */
  datatype Sit = Sit(fed: seq<byte>, waiting: seq<byte>, q: Queue)

  datatype Progress = GoOn | Finished | Aborted

  datatype Outcome = Outcome(progress: Progress, sit: Sit)

  /** How much `read` delivers at most, and the devices, in one turn. */
  datatype Step = Step(size: nat, retry: Device, fresh': Device)

  predicate AreReads(turns: seq<Step>) {
    forall i :: 0 <= i < |turns| ==> 0 < turns[i].size <= BSIZE
  }

  predicate AllRoomy(turns: seq<Step>) {
    forall i :: 0 <= i < |turns| ==> Roomy(turns[i].fresh')
  }

  ghost function Offered(z: Codec, s: Sit, dev: Device): Answer
    requires IsCodec(z)
  {
    AnswerTo(s.q, |s.waiting|, Completed(z, s.fed, s.waiting), dev)
  }

  ghost function OfferOf(z: Codec, s: Sit, dev: Device): Outcome
    requires IsCodec(z)
  {
    var q := QueueAfter(s.q, |s.waiting|, Completed(z, s.fed, s.waiting), dev);
    match Offered(z, s, dev)
    case Accepted => Outcome(GoOn, Sit(s.fed + s.waiting, [], q))
    case Refused => Outcome(GoOn, s.(q := q))
    case Abort => Outcome(Aborted, s)
  }

  /** Nothing is never refused, nor does it abort. */
  lemma EmptyIsTaken(z: Codec, fed: seq<byte>, q: Queue, dev: Device)
    requires IsCodec(z) && IsQueue(q)
    ensures AnswerTo(q, 0, Completed(z, fed, []), dev).Accepted?
  {
    assert fed + [] == fed;
    FlushedIsQueue(q, dev.a, dev.b);
  }

  ghost function ReadOf(z: Codec, s: Sit, data: seq<byte>, dev: Device): Outcome
    requires IsCodec(z)
  {
    var o := OfferOf(z, s.(waiting := data), dev);
    if o.progress.GoOn? && data == [] then o.(progress := Finished) else o
  }

  /** A chunk that was refused is offered once more. */
  ghost function RetryOf(z: Codec, s: Sit, dev: Device): Outcome
    requires IsCodec(z)
  {
    if s.waiting == [] then Outcome(GoOn, s) else OfferOf(z, s, dev)
  }

  /** The turn reads: nothing waits any more. */
  ghost predicate Reads(z: Codec, s: Sit, retry: Device)
    requires IsCodec(z)
  {
    var o := RetryOf(z, s, retry);
    o.progress.GoOn? && o.sit.waiting == []
  }

  ghost function TurnOf(z: Codec, s: Sit, data: seq<byte>, retry: Device, fresh': Device): Outcome
    requires IsCodec(z)
  {
    if Reads(z, s, retry) then ReadOf(z, RetryOf(z, s, retry).sit, data, fresh') else RetryOf(z, s, retry)
  }

  /** What one `read` of at most `size` bytes delivers. */
  function Delivered(rest: seq<byte>, size: nat): seq<byte> {
    if size < |rest| then rest[..size] else rest
  }

  lemma ReadOn(file: seq<byte>, pos: nat, size: nat)
    requires pos <= |file| && size > 0
    ensures var data := Delivered(file[pos..], size);
            && pos + |data| <= |file| && |data| <= size
            && file[..pos + |data|] == file[..pos] + data
            && file[pos..][|data|..] == file[pos + |data|..]
            && (data == [] ==> file[..pos] == file)
  {
  }

  ghost function StepOf(z: Codec, s: Sit, rest: seq<byte>, step: Step): Outcome
    requires IsCodec(z)
  {
    TurnOf(z, s, Delivered(rest, step.size), step.retry, step.fresh')
  }

  /** What is left of the file after the turn. */
  ghost function RestOf(z: Codec, s: Sit, rest: seq<byte>, step: Step): seq<byte>
    requires IsCodec(z)
  {
    if Reads(z, s, step.retry) then rest[|Delivered(rest, step.size)|..] else rest
  }

  /** The run over what is left of the file. */
  ghost function PlayOf(z: Codec, s: Sit, rest: seq<byte>, turns: seq<Step>): Outcome
    requires IsCodec(z)
    decreases |turns|
  {
    if turns == [] then Outcome(GoOn, s)
    else
      var o := StepOf(z, s, rest, turns[0]);
      if !o.progress.GoOn? then o
      else PlayOf(z, o.sit, RestOf(z, s, rest, turns[0]), turns[1..])
  }

  lemma PlayAt(z: Codec, s: Sit, rest: seq<byte>, turns: seq<Step>, i: nat)
    requires IsCodec(z) && i < |turns|
    ensures var o := StepOf(z, s, rest, turns[i]);
            PlayOf(z, s, rest, turns[i..])
            == if !o.progress.GoOn? then o
            else PlayOf(z, o.sit, RestOf(z, s, rest, turns[i]), turns[i + 1..])
  {
    assert turns[i..][0] == turns[i] && turns[i..][1..] == turns[i + 1..];
  }

  /** Each read of the file fits an empty ring. */
  ghost predicate ReadsFit(z: Codec, fed: seq<byte>, rest: seq<byte>, turns: seq<Step>)
    requires IsCodec(z)
    decreases |turns|
  {
    turns == [] || rest == []
    || (var data := Delivered(rest, turns[0].size);
        !Overflows(Completed(z, fed, data), AC3_SIZE) && ReadsFit(z, fed + data, rest[|data|..], turns[1..]))
  }

  lemma RoomyAnswer(q: Queue, len: nat, p: int, dev: Device)
    requires IsQueue(q) && len <= BSIZE && Roomy(dev)
    ensures AnswerTo(q, len, p, dev) == if Overflows(p, AC3_SIZE) then Answer.Abort else Accepted
    ensures 0 <= p && AnswerTo(q, len, p, dev).Accepted? ==> IsQueue(QueueAfter(q, len, p, dev))
  {
    FlushedIsQueue(q, dev.a, dev.b);
    var first := Flushed(q, dev.a, dev.b);
    if 0 <= p && !Overflows(p, AC3_SIZE) {
      FlushedIsQueue(first.(used := p), dev.c, dev.d);
    }
  }

  lemma RoomyRead(z: Codec, s: Sit, data: seq<byte>, dev: Device)
    requires IsCodec(z) && IsQueue(s.q) && |data| <= BSIZE && Roomy(dev)
    ensures var o := ReadOf(z, s, data, dev);
            && (o.progress.Aborted? <==> Overflows(Completed(z, s.fed, data), AC3_SIZE))
            && (!o.progress.Aborted? ==> IsQueue(o.sit.q) && o.sit.fed == s.fed + data && o.sit.waiting == [])
            && (o.progress.Finished? <==> !o.progress.Aborted? && data == [])
  {
    CompletedIs(z, s.fed, data);
    RoomyAnswer(s.q, |data|, Completed(z, s.fed, data), dev);
  }

  /** With a device that has room and turns enough, the file finishes if and only if each
      read fits the empty ring, and else the run aborts. */
  lemma {:induction false} RoomyRun(z: Codec, s: Sit, rest: seq<byte>, turns: seq<Step>)
    requires IsCodec(z) && IsQueue(s.q) && s.waiting == [] && |turns| > |rest|
    requires AreReads(turns) && AllRoomy(turns)
    ensures PlayOf(z, s, rest, turns).progress == if ReadsFit(z, s.fed, rest, turns) then Finished else Aborted
    decreases |turns|
  {
    var data := Delivered(rest, turns[0].size);
    RoomyRead(z, s, data, turns[0].fresh');
    if rest == [] {
      assert s.fed + data == s.fed;
    } else {
      var o := TurnOf(z, s, data, turns[0].retry, turns[0].fresh');
      if o.progress.GoOn? {
        RoomyRun(z, o.sit, rest[|data|..], turns[1..]);
      }
    }
  }

  lemma OfferKeepsQueue(z: Codec, s: Sit, dev: Device)
    requires IsCodec(z) && IsQueue(s.q)
    ensures IsQueue(OfferOf(z, s, dev).sit.q) && !OfferOf(z, s, dev).progress.Finished?
  {
    hide Completed;
    CompletedIs(z, s.fed, s.waiting);
    FlushedIsQueue(s.q, dev.a, dev.b);
    var first, p := Flushed(s.q, dev.a, dev.b), Completed(z, s.fed, s.waiting);
    if Offered(z, s, dev).Accepted? {
      FlushedIsQueue(first.(used := first.used + p), dev.c, dev.d);
    }
  }

  /** The read at the end of the file leaves nothing in the ring, when the device has room. */
  lemma LastReadEmpties(z: Codec, s: Sit, dev: Device)
    requires IsCodec(z) && IsQueue(s.q) && Roomy(dev)
    ensures ReadOf(z, s, [], dev).sit.q.used == 0
  {
    EmptyIsTaken(z, s.fed, s.q, dev);
    FlushedIsQueue(s.q, dev.a, dev.b);
    assert s.fed + [] == s.fed;
  }

  lemma TurnEmpties(z: Codec, s: Sit, rest: seq<byte>, step: Step)
    requires IsCodec(z) && IsQueue(s.q)
    ensures var o := StepOf(z, s, rest, step);
            && IsQueue(o.sit.q)
            && (o.progress.Finished? && Roomy(step.fresh') ==> o.sit.q.used == 0)
  {
    hide OfferOf;
    OfferKeepsQueue(z, s, step.retry);
    var data, r := Delivered(rest, step.size), RetryOf(z, s, step.retry);
    OfferKeepsQueue(z, r.sit.(waiting := data), step.fresh');
    if Roomy(step.fresh') {
      LastReadEmpties(z, r.sit, step.fresh');
    }
  }

  /** A run that finishes with a device that has room leaves nothing in the ring. */
  lemma {:induction false} FinishedIsPlayed(z: Codec, s: Sit, rest: seq<byte>, turns: seq<Step>)
    requires IsCodec(z) && IsQueue(s.q) && AllRoomy(turns)
    ensures var o := PlayOf(z, s, rest, turns);
            o.progress.Finished? ==> o.sit.q.used == 0
    decreases |turns|
  {
    hide StepOf, RestOf, IsQueue;
    if turns != [] {
      var o := StepOf(z, s, rest, turns[0]);
      TurnEmpties(z, s, rest, turns[0]);
      if o.progress.GoOn? {
        FinishedIsPlayed(z, o.sit, RestOf(z, s, rest, turns[0]), turns[1..]);
      }
    }
  }

  lemma EnoughTurns(z: Codec, s: Sit, file: seq<byte>, turns: seq<Step>)
    requires IsCodec(z) && IsQueue(s.q) && s.waiting == [] && AreReads(turns)
    ensures |turns| > |file| && AllRoomy(turns) ==>
              PlayOf(z, s, file, turns).progress == if ReadsFit(z, s.fed, file, turns) then Finished else Aborted
    ensures AllRoomy(turns) && PlayOf(z, s, file, turns).progress.Finished? ==>
              PlayOf(z, s, file, turns).sit.q.used == 0
  {
    if AllRoomy(turns) {
      FinishedIsPlayed(z, s, file, turns);
    }
    if |turns| > |file| && AllRoomy(turns) {
      RoomyRun(z, s, file, turns);
    }
  }

  /** Then every file of frames of at least 426 bytes is played to its end. */
  lemma {:induction false} LongFramesFinish(z: Codec, s: Sit, rest: seq<byte>, turns: seq<Step>)
    requires IsCodec(z) && IsQueue(s.q) && s.waiting == [] && |turns| > |rest| && FramesFrom(z, 426)
    requires AreReads(turns) && AllRoomy(turns)
    ensures PlayOf(z, s, rest, turns).progress == Finished
  {
    LongFramesFit(z, s.fed, rest, turns);
    RoomyRun(z, s, rest, turns);
  }

  lemma {:induction false} LongFramesFit(z: Codec, fed: seq<byte>, rest: seq<byte>, turns: seq<Step>)
    requires IsCodec(z) && FramesFrom(z, 426)
    requires AreReads(turns)
    ensures ReadsFit(z, fed, rest, turns)
    decreases |turns|
  {
    if turns != [] && rest != [] {
      var data := Delivered(rest, turns[0].size);
      EmptyRingIsSafe(z, fed, data);
      LongFramesFit(z, fed + data, rest[|data|..], turns[1..]);
    }
  }
}
