/** The 128K ring between the network reader and the audio device: `http_buffer`
    fills it, `send_mpeg_data` empties it. */
module StreamRing {
  import opened Bytes
  import opened Rings

  const OUT_BUF_SIZE: nat := 131072

  const PLAY: int := 0
  const PRELOAD: int := 4

  /** The ring index of the `n`th byte. */
  ghost function Wrapped(n: nat): nat { n % OUT_BUF_SIZE }

  lemma HeadWraps(total: nat, n: nat)
    requires n < OUT_BUF_SIZE
    ensures var head := Wrapped(total);
            Wrapped(total + n) == if head + n < OUT_BUF_SIZE then head + n else head + n - OUT_BUF_SIZE
  {
  }

  /** How many of the `full` unread bytes lie before the end of the ring. */
  ghost function Unbroken(tail: int, full: int): int {
    if full < OUT_BUF_SIZE - tail then full else OUT_BUF_SIZE - tail
  }

  /** A write of `send_mpeg_data` fails: the first, or the second when the first took all
      up to the end. */
  ghost predicate Fails(tail: int, full: int, room1: int, room2: int) {
    room1 < 0 || (Unbroken(tail, full) == OUT_BUF_SIZE - tail <= room1 && room2 < 0)
  }

  /** How much the device takes of the unread bytes. */
  ghost function Played(tail: int, full: int, room1: int, room2: int): int {
    TwoWrites(Unbroken(tail, full), full - Unbroken(tail, full), room1, room2)
  }

  /** In terms of the two answers, when no write fails. */
  lemma PlayedAnswers(tail: int, full: int, room1: int, room2: int)
    requires 0 <= tail < OUT_BUF_SIZE && 0 <= full < OUT_BUF_SIZE
    ensures 0 <= Played(tail, full, room1, room2) <= full
    ensures var n, first := Played(tail, full, room1, room2), OUT_BUF_SIZE - tail;
            && (room1 <= 0 ==> n == 0)
            && (0 <= room1 < first && room1 < full ==> n == room1)
            && (full < first && full <= room1 ==> n == full)
            && (first <= full && first <= room1 && 0 <= room2 < full - first ==> n == first + room2)
            && (first <= full && first <= room1 && full - first <= room2 ==> n == full)
            && (Fails(tail, full, room1, room2) <==> room1 < 0 || (first <= full && first <= room1 && room2 < 0))
  {
  }

  /** The tail moved on, going round. */
  ghost function MovedOn(tail: int, n: int): int {
    if tail + n < OUT_BUF_SIZE then tail + n else tail + n - OUT_BUF_SIZE
  }

  class RingBuf {
    const buf: array<byte>
    var head: int
    var tail: int
    var playmode: int

    /** The audio device; it has the record of every byte it took. */
    const device: Sink<byte>

    /** Every byte put in. */
    ghost var written: seq<byte>

    ghost predicate InRange()
      reads this
    {
      buf.Length == OUT_BUF_SIZE && 0 <= head < OUT_BUF_SIZE && 0 <= tail < OUT_BUF_SIZE
    }

    /** The unread bytes, oldest first. */
    ghost function Contents(): seq<byte>
      requires InRange()
      reads this, buf
    {
      Unread(buf[..], head, tail)
    }

    /** A queue: what went in is what came out followed by what is still inside. */
    ghost predicate Valid()
      reads this, buf, device
      ensures Valid() ==> InRange()
    {
      && InRange()
      && written == device.taken + Contents()
      && head == Wrapped(|written|)
      && (playmode == PRELOAD ==> tail == 0 && device.taken == [])
    }

    /** What was put in and not taken is still inside. */
    lemma StillInside()
      requires Valid()
      ensures device.taken <= written && written == device.taken + Contents() && Full() == |Contents()|
    {
    }

    /** How many bytes are unread. */
    ghost function Full(): int
      reads this`written, device
    {
      |written| - |device.taken|
    }

    constructor ()
      ensures Valid() && fresh(buf) && fresh(device)
      ensures playmode == PRELOAD && written == [] && device.taken == []
    {
      device := new Sink();
      buf := new byte[OUT_BUF_SIZE](_ => 0);
      head, tail, playmode := 0, 0, PRELOAD;
      written := [];
    }

    /** `bufferFull`. */
    method Occupancy() returns (full: int)
      requires Valid()
      ensures full == Full() == |Contents()|
      ensures 0 <= full < OUT_BUF_SIZE
    {
      if head >= tail {
        full := head - tail;
      } else {
        full := head + (OUT_BUF_SIZE - tail);
      }
    }

    /** `http_buffer`: split the copy between the end and the start of the ring. */
    method Put(data: seq<byte>)
      requires Valid()
      requires Full() + |data| < OUT_BUF_SIZE
      modifies this`head, this`written, buf
      ensures Valid()
      ensures written == old(written) + data
      ensures Contents() == old(Contents()) + data
    {
      var n := |data|;
      if n != 0 {
        HeadWraps(|written|, n);
        CopyAround(data);
        written := written + data;
      }
    }

    /** The copy and the move of `head`. */
    method CopyAround(data: seq<byte>)
      requires InRange() && 0 < |Contents()| + |data| < OUT_BUF_SIZE
      modifies this`head, buf
      ensures InRange()
      ensures head == (if old(head) + |data| < OUT_BUF_SIZE then old(head) + |data|
                       else old(head) + |data| - OUT_BUF_SIZE)
      ensures Contents() == old(Contents()) + data
    {
      var n := |data|;
      CopyAppends(buf[..], head, tail, data);
      if head + n <= OUT_BUF_SIZE {
        CopyIn(buf, head, data);
        head := head + n;
        if head == OUT_BUF_SIZE {
          head := 0;
        }
      } else {
        var room := OUT_BUF_SIZE - head;
        CopyIn(buf, head, data[..room]);
        CopyIn(buf, 0, data[room..]);
        head := n - room;
      }
    }

    /** `send_mpeg_data` with the device open.  While no write fails, what the device took
        and what is left are what was there, in order; the ring stays a queue exactly when
        no write fails, for the code adds the answer -1 to `tail` as it stands. */
    method Drain(room1: int, room2: int) returns (ok: bool)
      requires Valid()
      modifies this`tail, device
      ensures ok <==> Valid()
      ensures playmode != PLAY ==> Valid() && device.taken == old(device.taken) && tail == old(tail)
      ensures playmode == PLAY ==> (Valid() <==> !Fails(old(tail), old(Full()), room1, room2))
      ensures playmode == PLAY && Valid() ==>
                && device.taken + Contents() == old(device.taken + Contents())
                && tail == MovedOn(old(tail), Played(old(tail), old(Full()), room1, room2))
      ensures playmode == PLAY ==>
                |device.taken| == |old(device.taken)| + Played(old(tail), old(Full()), room1, room2)
      ensures old(device.taken) <= device.taken <= written
    {
      StillInside();
      ok := true;
      if playmode == PLAY {
        ghost var unread, before := Contents(), device.taken;
        ok := WriteOut(room1, room2);
        ghost var n := Played(old(tail), |unread|, room1, room2);
        ghost var out, rest := unread[..n], unread[n..];
        assert unread == out + rest;
        Regroup(before, out, rest);
        if ok {
          TakenAtTail(buf[..], head, old(tail), n);
        } else {
          assert InRange() ==> |device.taken + Contents()| != |written|;
        }
      }
    }

    /** The writes, and the moves of the tail; whether none of them fails. */
    method WriteOut(room1: int, room2: int) returns (ok: bool)
      requires InRange()
      modifies this`tail, device
      ensures var full := |old(Contents())|;
              var n := Played(old(tail), full, room1, room2);
              && 0 <= n <= full
              && (ok <==> !Fails(old(tail), full, room1, room2))
              && (ok ==> tail == MovedOn(old(tail), n))
              && (!ok ==> !InRange() || |Contents()| != full - n)
              && device.taken == old(device.taken) + old(Contents())[..n]
    {
      ok := true;
      ghost var before, unread := device.taken, Contents();
      if head < tail {
        ghost var front, back := buf[tail..], buf[..head];
        TakenOfTwo(front, back);
        var n := device.Write(buf[tail..], room1);
        if n == 0 {
        } else if n == OUT_BUF_SIZE - tail {
          tail := 0;
          assert device.taken == before + front;
          n := device.Write(buf[..head], room2);
          Regroup(before, front, back[..if n < 0 then 0 else n]);
          if n == 0 {
          } else if n == head {
            tail := head;
          } else {
            tail := n;
          }
        } else {
          tail := tail + n;
        }
        ok := n >= 0;
      } else {
        var n := device.Write(buf[tail..head], room1);
        if n != 0 {
          tail := tail + n;
        }
        ok := n >= 0;
      }
      assert before + [] == before;
    }
  }
}
