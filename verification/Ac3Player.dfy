/** `a52_decode_data` and `ac3_play`: frames are put together from chunks of any
    size, decoded into the PCM ring, and a chunk that meets a full ring is offered
    again unchanged. */
module Ac3Player {
  import opened Bytes
  import opened Rings
  import opened Ac3Scan
  import opened Ac3Space
  import Ac3Reset
  import PcmRing

  class Framer {
    const z: Codec
    const ring: PcmRing.Ring
    const buf: array<byte>
    var bufptr: nat
    var bufpos: nat

    /** Every frame handed to the decoder; its state is a function of them. */
    var frames: seq<seq<byte>>

    /** Every byte accepted. */
    ghost var fed: seq<byte>

    ghost predicate Wired()
    {
      && IsCodec(z)
      && buf.Length == MAX_FRAME && buf != ring.buf
    }

    /** The frame buffer, with `bufptr` bytes in it and `bufpos` wanted. */
    ghost predicate Holds(partial: seq<byte>)
      requires Wired()
      reads this`bufptr, this`bufpos, buf
    {
      && bufptr <= bufpos <= MAX_FRAME
      && buf[..bufptr] == partial
      && (bufpos == HEADER || (HEADER <= bufptr && HEADER < bufpos == z.sync(partial[..HEADER])))
    }

    ghost predicate Scanned()
      reads this, buf
    {
      && Wired() && bufptr < bufpos
      && Holds(Pending(z.sync, fed))
      && frames == Frames(z.sync, fed)
    }

    ghost predicate Valid()
      reads this, buf, ring, ring.buf, ring.device
      ensures Valid() ==> IsCodec(z) && bufptr < bufpos && ring.Valid()
    {
      && Scanned() && ring.Valid()
      && ring.added == Pcm(z.decode, frames)
    }

    /** The room left in the ring. */
    ghost function Free(): int
      requires ring.InRange()
      reads ring
    {
      PcmRing.AC3_SIZE - ring.Space().used
    }

    /** The ring with `n` more bytes in it. */
    ghost function Grown(n: int): PcmRing.Queue
      requires ring.InRange()
      reads ring
    {
      PcmRing.Queue(ring.tail, ring.Space().used + n)
    }

    constructor (z: Codec)
      requires IsCodec(z)
      ensures Valid() && fresh(ring) && fresh(ring.buf) && fresh(ring.device) && fresh(buf)
      ensures ring.device.taken == []
      ensures fed == [] && this.z == z
    {
      this.z := z;
      ring := new PcmRing.Ring();
      buf := new byte[MAX_FRAME](_ => 0);
      bufptr, bufpos := 0, HEADER;
      fed, frames := [], [];
    }

    /** Copy in as many bytes as are wanted. */
    method Collect(piece: seq<byte>, ghost partial: seq<byte>)
      requires Wired() && Holds(partial) && |piece| <= bufpos - bufptr
      modifies this`bufptr, buf
      ensures bufptr == old(bufptr) + |piece| && Holds(partial + piece)
    {
      CopyIn(buf, bufptr, piece);
      bufptr := bufptr + |piece|;
      assert buf[..bufptr] == partial + piece;
      assert bufpos > HEADER ==> (partial + piece)[..HEADER] == partial[..HEADER];
    }

    /** The bytes wanted are all there: a header to look at, or a frame to decode. */
    method Decide(ghost cur: seq<byte>) returns (ok: bool)
      requires Wired() && Holds(cur) && bufptr == bufpos
      requires ring.Valid() && ring.added == Pcm(z.decode, frames)
      modifies this`bufptr, this`bufpos, this`frames, buf, ring`head, ring`added, ring.buf
      ensures ok <==> !Overflows(Sound(z.decode, old(frames), Frames(z.sync, cur)), old(Free()))
      ensures ok ==> ring.InRange() && ring.Space() == old(Grown(Sound(z.decode, frames, Frames(z.sync, cur))))
      ensures ok ==> bufptr < bufpos && Holds(Pending(z.sync, cur))
      ensures ok ==> frames == old(frames) + Frames(z.sync, cur)
      ensures ok ==> ring.Valid() && ring.added == Pcm(z.decode, frames)
    {
      ok := true;
      if bufpos == HEADER {
        assert cur[..HEADER] == cur;
        var length := z.sync(buf[..HEADER]);
        NoSound(z.decode, frames);
        if length == 0 {
          DropByte();
          assert buf[..bufptr] == cur[1..];
        } else {
          bufpos := length;
          StillPartial(z.sync, cur, length);
        }
      } else {
        WholeFrame(z.sync, cur);
        ok := DecodeFrame(buf[..bufpos]);
        bufptr, bufpos := 0, HEADER;
      }
    }

    /** No frame starts here: move the header down by one byte. */
    method DropByte()
      requires Wired() && bufptr == bufpos == HEADER
      modifies this`bufptr, buf
      ensures bufptr == HEADER - 1 && buf[..bufptr] == old(buf[..HEADER])[1..]
    {
      bufptr := 0;
      while bufptr < HEADER - 1
        invariant 0 <= bufptr <= HEADER - 1
        invariant forall i :: 0 <= i < bufptr ==> buf[i] == old(buf[i + 1])
        invariant forall i :: bufptr <= i < buf.Length ==> buf[i] == old(buf[i])
      {
        buf[bufptr] := buf[bufptr + 1];
        bufptr := bufptr + 1;
      }
    }

    /** Decode one frame and add its blocks to the ring; false is the `abort()` of
        a ring without room. */
    method DecodeFrame(frame: seq<byte>) returns (ok: bool)
      requires Wired() && ring.Valid() && ring.added == Pcm(z.decode, frames)
      modifies this`frames, ring`head, ring`added, ring.buf
      ensures ok <==> !Overflows(Sound(z.decode, old(frames), [frame]), old(Free()))
      ensures ok ==> ring.InRange() && ring.Space() == old(Grown(Sound(z.decode, frames, [frame])))
      ensures ok ==> ring.Valid() && ring.added == Pcm(z.decode, frames)
      ensures frames == old(frames) + [frame]
    {
      var blocks := z.decode(frames, frame);
      PcmAppend(z.decode, frames, frame);
      frames := frames + [frame];
      ok := AddBlocks(ring, blocks);
    }

    static method AddBlocks(ring: PcmRing.Ring, blocks: seq<seq<byte>>) returns (ok: bool)
      requires ring.Valid()
      requires forall i :: 0 <= i < |blocks| ==> |blocks[i]| == BLOCK_BYTES
      modifies ring`head, ring`added, ring.buf
      ensures ok <==> !Overflows(|Flatten(blocks)|, PcmRing.AC3_SIZE - old(ring.Space()).used)
      ensures ok ==> ring.Valid() && ring.added == old(ring.added) + Flatten(blocks)
      ensures ok ==> ring.Space() == PcmRing.Queue(ring.tail, old(ring.Space()).used + |Flatten(blocks)|)
    {
      hide PcmRing.Ring.Valid, PcmRing.Accepts;
      ok := true;
      var i := 0;
      ghost var free := PcmRing.AC3_SIZE - ring.Space().used;
      while i < |blocks|
        invariant 0 <= i <= |blocks| && ring.Valid()
        invariant ring.added == old(ring.added) + Flatten(blocks[..i])
        invariant ring.Space().used == old(ring.Space().used) + i * BLOCK_BYTES
        invariant i > 0 ==> i * BLOCK_BYTES + GAP <= free
      {
        PcmRing.AcceptsExact(ring.head, ring.tail, BLOCK_BYTES);
        assert blocks[..i + 1] == blocks[..i] + [blocks[i]];
        FlattenAppend(blocks[..i], blocks[i]);
        Regroup(old(ring.added), Flatten(blocks[..i]), blocks[i]);
        var r := ring.Add(blocks[i]);
        if r.Abort? {
          BlocksSize(blocks);
          return false;
        }
        i := i + 1;
      }
      assert blocks[..i] == blocks;
      BlocksSize(blocks);
    }

    /** After a piece was copied in: all the bytes wanted are there, or not yet. */
    method Settle(ghost cur: seq<byte>) returns (ok: bool)
      requires Wired() && Holds(cur)
      requires ring.Valid() && ring.added == Pcm(z.decode, frames)
      modifies this`bufptr, this`bufpos, this`frames, buf, ring`head, ring`added, ring.buf
      ensures ok <==> !Overflows(Sound(z.decode, old(frames), Frames(z.sync, cur)), old(Free()))
      ensures ok ==> ring.InRange() && ring.Space() == old(Grown(Sound(z.decode, frames, Frames(z.sync, cur))))
      ensures ok ==> bufptr < bufpos && Holds(Pending(z.sync, cur))
      ensures ok ==> frames == old(frames) + Frames(z.sync, cur)
      ensures ok ==> ring.Valid() && ring.added == Pcm(z.decode, frames)
    {
      hide Sound, PcmRing.Ring.Valid, Pcm;
      ok := true;
      if bufptr == bufpos {
        ok := Decide(cur);
      } else {
        StillPartial(z.sync, cur, bufpos);
        NoSound(z.decode, frames);
      }
    }

    /** A piece no longer than what is wanted. */
    method Absorb(piece: seq<byte>) returns (ok: bool)
      requires Valid() && |piece| <= bufpos - bufptr
      modifies this`bufptr, this`bufpos, this`fed, this`frames, buf, ring`head, ring`added, ring.buf
      ensures ok <==> !Overflows(Completed(z, old(fed), piece), old(Free()))
      ensures ok ==> Valid() && fed == old(fed) + piece
      ensures ok ==> ring.Space() == old(Grown(Completed(z, fed, piece)))
    {
      hide Completed, Sound, PcmRing.Ring.Valid, Holds, Overflows, Frames, Pending, Pcm;
      ghost var partial := Pending(z.sync, fed);
      ScanResumes(z.sync, fed, piece);
      CompletedIsSound(z, fed, piece);
      Collect(piece, partial);
      ok := Settle(partial + piece);
      fed := fed + piece;
    }

    /** The copying loop; the bytes of the chunk still to be taken are its measure. */
    method AbsorbAll(chunk: seq<byte>) returns (ok: bool)
      requires Valid()
      modifies this`bufptr, this`bufpos, this`fed, this`frames, buf, ring`head, ring`added, ring.buf
      ensures ok <==> !Overflows(Completed(z, old(fed), chunk), old(Free()))
      ensures ok ==> Valid() && fed == old(fed) + chunk
      ensures ok ==> ring.Space() == old(Grown(Completed(z, fed, chunk)))
    {
      hide Valid, Overflows, Completed, IsCodec;
      var start := 0;
      ghost var before, free := fed, Free();
      NothingCompletes(z, before, free);
      assert before + [] == before;
      while start < |chunk|
        invariant 0 <= start <= |chunk| && Valid()
        invariant fed == before + chunk[..start]
        invariant ring.Space() == old(Grown(Completed(z, fed, chunk[..start])))
        invariant !Overflows(Completed(z, before, chunk[..start]), free)
      {
        var len := |chunk| - start;
        if len > bufpos - bufptr {
          len := bufpos - bufptr;
        }
        var piece := chunk[start..start + len];
        assert chunk[..start + len] == chunk[..start] + piece;
        assert chunk == chunk[..start] + piece + chunk[start + len..];
        Regroup(before, chunk[..start], piece);
        OverflowsOn(z, before, chunk[..start], piece, chunk[start + len..], free);
        CompletedAdds(z, before, chunk[..start], piece);
        ok := Absorb(piece);
        if !ok {
          return false;
        }
        start := start + len;
      }
      ok := true;
      assert chunk[..start] == chunk;
    }

    method FlushRing(room1: int, room2: int)
      requires Valid()
      modifies ring`tail, ring.device
      ensures Valid() && old(ring.device.taken) <= ring.device.taken
      ensures ring.Space() == PcmRing.Flushed(old(ring.Space()), room1, room2)
    {
      var _ := ring.Flush(room1, room2);
    }

    /** One call of `a52_decode_data` with a chunk. */
    method DecodeData(chunk: seq<byte>, dev: Device) returns (r: Answer)
      requires Valid()
      modifies this`bufptr, this`bufpos, this`fed, this`frames, buf
      modifies ring, ring.buf, ring.device
      ensures r == AnswerTo(old(ring.Space()), |chunk|, Completed(z, old(fed), chunk), dev)
      ensures !r.Abort? ==>
                Valid() && ring.Space() == QueueAfter(old(ring.Space()), |chunk|, Completed(z, old(fed), chunk), dev)
      ensures r.Accepted? ==> fed == old(fed) + chunk
      ensures r.Refused? ==> fed == old(fed) && unchanged(this) && unchanged(buf)
      ensures r.Accepted? && dev.c >= PcmRing.AC3_SIZE && dev.d >= PcmRing.AC3_SIZE ==> ring.Contents() == []
    {
      hide Valid, Overflows, Completed, IsCodec, PcmRing.Flushed, PcmRing.Ring.Contents, PcmRing.Ring.Valid;
      FlushRing(dev.a, dev.b);
      var n := ring.FreeSpace();
      if n < |chunk| * GUARD {
        return Refused;
      }
      var ok := AbsorbAll(chunk);
      if !ok {
        return Answer.Abort;
      }
      FlushRing(dev.c, dev.d);
      r := Accepted;
      CompletedIs(z, old(fed), chunk);
      if dev.c >= PcmRing.AC3_SIZE && dev.d >= PcmRing.AC3_SIZE {
        AllIsPlayed(old(ring.Space()), |chunk|, Completed(z, old(fed), chunk), dev);
        ring.SizeIsUsed();
      }
    }
  }

  class Player {
    const framer: Framer

    /** `buf[..ac3len]`, and whether it was refused and must be offered again. */
    var chunk: seq<byte>
    var more: bool
    var pcmDecoded: bool

    /** The bytes read from the file since it was opened, and what the framer had
        been fed by then: it is not reset, so a new file follows on the old one. */
    ghost var fileRead: seq<byte>
    ghost var base: seq<byte>

    ghost predicate Valid()
      reads this`chunk, this`more, this`fileRead, this`base
      reads framer, framer.buf, framer.ring, framer.ring.buf, framer.ring.device
      ensures Valid() ==> IsCodec(framer.z) && framer.ring.InRange()
    {
      && framer.Valid()
      && |chunk| <= BSIZE && (more ==> chunk != [])
      && framer.fed + Waiting() == base + fileRead
    }

    ghost function Waiting(): seq<byte>
      reads this`chunk, this`more
    {
      if more then chunk else []
    }

    /** How the run stands. */
    ghost function Now(): Sit
      requires framer.ring.InRange()
      reads this`chunk, this`more, framer, framer.ring
    {
      Sit(framer.fed, Waiting(), framer.ring.Space())
    }

    constructor (z: Codec)
      requires IsCodec(z)
      ensures Valid() && base == [] && fileRead == []
      ensures framer.z == z
      ensures fresh(framer) && fresh(framer.buf) && fresh(framer.ring) && fresh(framer.ring.buf)
      ensures fresh(framer.ring.device) && framer.ring.device.taken == []
    {
      framer := new Framer(z);
      chunk, more, pcmDecoded := [], false, false;
      fileRead, base := [], [];
    }

    /** A call with no output: the state is set back for a new file. */
    method Open()
      requires Valid()
      modifies this
      ensures Valid() && !more && fileRead == [] && base == framer.fed
    {
      pcmDecoded, more, chunk := false, false, [];
      fileRead, base := [], framer.fed;
    }

    /** One turn.  `data` is what `read` delivers if it is called, and nothing at the
        end of the file. */
    method Turn(data: seq<byte>, retry: Device, fresh': Device) returns (r: Progress, called: bool)
      requires Valid() && |data| <= BSIZE
      modifies this, framer`bufptr, framer`bufpos, framer`fed, framer`frames, framer.buf
      modifies framer.ring, framer.ring.buf, framer.ring.device
      ensures r == TurnOf(framer.z, old(Now()), data, retry, fresh').progress
      ensures !r.Aborted? ==> Valid() && Now() == TurnOf(framer.z, old(Now()), data, retry, fresh').sit
      ensures !r.Aborted? ==> base == old(base) && fileRead == old(fileRead) + if called then data else []
      ensures !r.Aborted? ==> (called <==> Reads(framer.z, old(Now()), retry))
      ensures r.Finished? ==> called && data == [] && framer.fed == base + fileRead
    {
      hide Valid, OfferOf, ReadOf, RetryOf, IsCodec;
      r := Retry(retry);
      called := !more;
      if r.Aborted? {
        return;
      }
      if called {
        r := ReadAndOffer(data, fresh');
      }
      pcmDecoded := true;
    }

    /** Offer a chunk that was refused once more. */
    method Retry(dev: Device) returns (r: Progress)
      requires Valid()
      modifies this`more, framer`bufptr, framer`bufpos, framer`fed, framer`frames, framer.buf
      modifies framer.ring, framer.ring.buf, framer.ring.device
      ensures r == RetryOf(framer.z, old(Now()), dev).progress && !r.Finished?
      ensures r.GoOn? ==> Valid() && Now() == RetryOf(framer.z, old(Now()), dev).sit
      ensures more <==> Waiting() != []
    {
      r := Progress.GoOn;
      if more {
        r := Offer(dev);
      }
    }

    method ReadAndOffer(data: seq<byte>, dev: Device) returns (r: Progress)
      requires Valid() && !more && |data| <= BSIZE
      modifies this`more, this`chunk, this`fileRead
      modifies framer`bufptr, framer`bufpos, framer`fed, framer`frames, framer.buf
      modifies framer.ring, framer.ring.buf, framer.ring.device
      ensures r == ReadOf(framer.z, old(Now()), data, dev).progress
      ensures chunk == data && fileRead == old(fileRead) + data
      ensures !r.Aborted? ==> Valid() && Now() == ReadOf(framer.z, old(Now()), data, dev).sit
      ensures r.Finished? ==> data == [] && framer.fed == base + fileRead
    {
      assert framer.fed == base + fileRead;
      Regroup(base, fileRead, data);
      chunk := data;
      fileRead := fileRead + data;
      r := Offer(dev);
      if !more && chunk == [] && r.GoOn? {
        r := Progress.Finished;
      }
    }

    /** Hand the chunk to the framer, which takes it all or refuses it whole. */
    method Offer(dev: Device) returns (r: Progress)
      requires framer.Valid() && |chunk| <= BSIZE
      requires framer.fed + chunk == base + fileRead
      modifies this`more, framer`bufptr, framer`bufpos, framer`fed, framer`frames, framer.buf
      modifies framer.ring, framer.ring.buf, framer.ring.device
      ensures r == old(Offering(dev)).progress
      ensures r.GoOn? ==> Valid() && Now() == old(Offering(dev)).sit
    {
      EmptyIsTaken(framer.z, framer.fed, framer.ring.Space(), dev);
      var a := framer.DecodeData(chunk, dev);
      if a.Abort? {
        return Progress.Aborted;
      }
      more := a.Refused?;
      r := Progress.GoOn;
    }

    /** What offering the chunk comes to. */
    ghost function Offering(dev: Device): Outcome
      requires IsCodec(framer.z) && framer.ring.InRange()
      reads this`chunk, framer, framer.ring
    {
      OfferOf(framer.z, Sit(framer.fed, chunk, framer.ring.Space()), dev)
    }

    /** A turn that reads on from `pos`. */
    method PlayTurn(file: seq<byte>, pos: nat, step: Step) returns (r: Progress, pos': nat)
      requires Valid() && pos <= |file| && fileRead == file[..pos] && 0 < step.size <= BSIZE
      modifies this, framer`bufptr, framer`bufpos, framer`fed, framer`frames, framer.buf
      modifies framer.ring, framer.ring.buf, framer.ring.device
      ensures pos <= pos' <= |file|
      ensures r == StepOf(framer.z, old(Now()), file[pos..], step).progress
      ensures !r.Aborted? ==> Valid() && base == old(base) && fileRead == file[..pos']
      ensures !r.Aborted? ==>
                && Now() == StepOf(framer.z, old(Now()), file[pos..], step).sit
                && file[pos'..] == RestOf(framer.z, old(Now()), file[pos..], step)
      ensures r.Finished? ==> framer.fed == base + file
    {
      hide Valid, TurnOf, Reads, IsCodec;
      var data := Delivered(file[pos..], step.size);
      ReadOn(file, pos, step.size);
      var called;
      r, called := Turn(data, step.retry, step.fresh');
      pos' := if called then pos + |data| else pos;
    }

    /** Play a file against any history of short reads and full devices.  The outcome,
        the abort included, is that of the run that only counts.  When the file is
        reported finished, the decoder got exactly the frames of a greedy scan of the
        whole file (behind what an earlier file left undecided), and the device and
        the ring have exactly their PCM. */
    method PlayFile(file: seq<byte>, turns: seq<Step>) returns (r: Progress)
      requires Valid() && fileRead == [] && !more
      requires AreReads(turns)
      modifies this, framer`bufptr, framer`bufpos, framer`fed, framer`frames, framer.buf
      modifies framer.ring, framer.ring.buf, framer.ring.device
      ensures r == PlayOf(framer.z, old(Now()), file, turns).progress
      ensures !r.Aborted? ==> Valid() && base == old(base) && fileRead <= file
      ensures r.Finished? ==>
                var ring := framer.ring;
                && framer.frames == Frames(framer.z.sync, base + file)
                && ring.device.taken + ring.Contents() == Pcm(framer.z.decode, framer.frames)
      ensures r.Finished? && AllRoomy(turns) ==>
                framer.ring.device.taken == Pcm(framer.z.decode, Frames(framer.z.sync, base + file))
      ensures r.Finished? && Ac3Reset.Harmless(framer.z.sync, Pending(framer.z.sync, base)) ==>
                framer.frames == Frames(framer.z.sync, base) + Frames(framer.z.sync, file)
      ensures |turns| > |file| && AllRoomy(turns) ==>
                r == if ReadsFit(framer.z, old(base), file, turns) then Progress.Finished else Progress.Aborted
    {
      assert base + [] == base && framer.fed + [] == framer.fed;
      EnoughTurns(framer.z, Now(), file, turns);
      Ac3Reset.NextFile(framer.z.sync, base, file);
      r := PlayTurns(file, turns);
      if r.Finished? && AllRoomy(turns) {
        framer.ring.SizeIsUsed();
      }
    }

    method PlayTurns(file: seq<byte>, turns: seq<Step>) returns (r: Progress)
      requires Valid() && fileRead == []
      requires AreReads(turns)
      modifies this, framer`bufptr, framer`bufpos, framer`fed, framer`frames, framer.buf
      modifies framer.ring, framer.ring.buf, framer.ring.device
      ensures r == PlayOf(framer.z, old(Now()), file, turns).progress
      ensures !r.Aborted? ==> Valid() && base == old(base) && fileRead <= file
      ensures !r.Aborted? ==> Now() == PlayOf(framer.z, old(Now()), file, turns).sit
      ensures r.Finished? ==> framer.fed == base + file
    {
      hide StepOf, RestOf, Valid, IsCodec;
      r := Progress.GoOn;
      var pos, i := 0, 0;
      ghost var all := PlayOf(framer.z, Now(), file, turns);
      assert file[0..] == file && turns[0..] == turns;
      while i < |turns|
        invariant 0 <= i <= |turns| && 0 <= pos <= |file|
        invariant r.GoOn? && Valid() && base == old(base) && fileRead == file[..pos]
        invariant all == PlayOf(framer.z, Now(), file[pos..], turns[i..])
      {
        PlayAt(framer.z, Now(), file[pos..], turns, i);
        r, pos := PlayTurn(file, pos, turns[i]);
        if !r.GoOn? {
          return;
        }
        i := i + 1;
      }
    }
  }
}
