/** The PCM ring of the AC-3 player: `ac3_add`, `ac3_freespace`, `ac3_flush`.
    `tail` points one byte before the first unread one, so `head` and `tail` never
    meet. */
module PcmRing {
  import opened Bytes
  import opened Rings

  const AC3_SIZE: nat := 524288

  /** The next ring index. */
  function Next(i: int): int
    requires 0 <= i < AC3_SIZE
  {
    if i + 1 == AC3_SIZE then 0 else i + 1
  }

  /** The index `n` places on. */
  ghost function Ahead(i: int, n: nat): int
  {
    if i + n < AC3_SIZE then i + n else i + n - AC3_SIZE
  }

  ghost predicate Apart(head: int, tail: int) {
    0 <= head < AC3_SIZE && 0 <= tail < AC3_SIZE && head != tail
  }

  /** How many bytes are unread. */
  ghost function Used(head: int, tail: int): nat
    requires Apart(head, tail)
  {
    if head > tail then head - tail - 1 else head + AC3_SIZE - tail - 1
  }

  lemma FlushedTail<T>(b: seq<T>, head: int, tail: int, n: nat)
    requires |b| == AC3_SIZE && Apart(head, tail) && n <= Used(head, tail)
    ensures Apart(head, Ahead(tail, n))
    ensures Unread(b, head, Next(Ahead(tail, n))) == Unread(b, head, Next(tail))[n..]
  {
    hide Unread;
    TailMoves(head, tail, n);
    UnreadSize(b, head, tail);
    TakenAtTail(b, head, Next(tail), n);
  }

  lemma TailMoves(head: int, tail: int, n: nat)
    requires Apart(head, tail) && n <= Used(head, tail)
    ensures Apart(head, Ahead(tail, n))
    ensures Next(Ahead(tail, n)) == if Next(tail) + n < AC3_SIZE then Next(tail) + n else Next(tail) + n - AC3_SIZE
  {
  }

  lemma UnreadSize<T>(b: seq<T>, head: int, tail: int)
    requires |b| == AC3_SIZE && Apart(head, tail)
    ensures |Unread(b, head, Next(tail))| == Used(head, tail)
  {
  }

  /** The test of `ac3_add`; it fails into `abort()`. */
  predicate Accepts(head: int, tail: int, len: int) {
    var end := (head + len + 6) % AC3_SIZE;
    if head > tail then !(end < head && end > tail) else !(end > tail || end < head)
  }

  /** The end of a copy, modulo the size. */
  lemma EndIsAhead(head: int, len: nat)
    requires 0 <= head < AC3_SIZE && len < AC3_SIZE
    ensures (head + len) % AC3_SIZE == Ahead(head, len)
  {
  }

  /** Within the range of lengths the callers use, the test leaves a gap of seven. */
  lemma AcceptsExact(head: int, tail: int, len: int)
    requires Apart(head, tail) && 0 < len < AC3_SIZE - 6
    ensures Accepts(head, tail, len) <==> len + 7 <= AC3_SIZE - Used(head, tail)
  {
  }

  /** The test protects the unread bytes at every ring position exactly for lengths
      below AC3_SIZE - 6; the source asserts only that they are below AC3_SIZE. */
  lemma SafeLengths(len: int)
    requires 0 < len < AC3_SIZE
    ensures (forall head, tail :: Apart(head, tail) && Accepts(head, tail, len) ==>
               Used(head, tail) + len < AC3_SIZE - 1)
            <==> len < AC3_SIZE - 6
  {
    if len < AC3_SIZE - 6 {
      forall head, tail | Apart(head, tail) && Accepts(head, tail, len)
        ensures Used(head, tail) + len < AC3_SIZE - 1
      {
        AcceptsExact(head, tail, len);
      }
    } else {
      assert Apart(8, AC3_SIZE - 1) && Accepts(8, AC3_SIZE - 1, len);
      assert Used(8, AC3_SIZE - 1) == 8;
    }
  }

  /** The ring without its bytes: where the tail is, and how many bytes are unread. */
  datatype Queue = Queue(tail: int, used: int)

  ghost predicate IsQueue(q: Queue) {
    0 <= q.tail < AC3_SIZE && 0 <= q.used < AC3_SIZE - 1
  }

  /** How many bytes a flush takes: what lies before the end of the ring first, and the
      rest only when that was taken whole. */
  ghost function FlushCount(q: Queue, room1: int, room2: int): int {
    var first := if q.used < AC3_SIZE - 1 - q.tail then q.used else AC3_SIZE - 1 - q.tail;
    TwoWrites(first, q.used - first, room1, room2)
  }

  ghost function Flushed(q: Queue, room1: int, room2: int): Queue {
    var n := FlushCount(q, room1, room2);
    Queue(if q.tail + n < AC3_SIZE then q.tail + n else q.tail + n - AC3_SIZE, q.used - n)
  }

  /** In terms of the two answers: a first write that is refused, fails or is short is all
      there is; else the second write adds what it takes of the rest. */
  lemma FlushAnswers(q: Queue, room1: int, room2: int)
    requires IsQueue(q)
    ensures var n, first := FlushCount(q, room1, room2), AC3_SIZE - 1 - q.tail;
            && (room1 <= 0 && first > 0 ==> n == 0)
            && (0 < room1 < first && room1 < q.used ==> n == room1)
            && (q.used <= first && q.used <= room1 ==> n == q.used)
            && (first < q.used && first <= room1 && room2 <= 0 ==> n == first)
            && (first < q.used && first <= room1 && 0 < room2 < q.used - first ==> n == first + room2)
            && (first < q.used && first <= room1 && q.used - first <= room2 ==> n == q.used)
  {
  }

  lemma FlushedIsQueue(q: Queue, room1: int, room2: int)
    requires IsQueue(q)
    ensures IsQueue(Flushed(q, room1, room2))
    ensures room1 >= AC3_SIZE && room2 >= AC3_SIZE ==> Flushed(q, room1, room2).used == 0
  {
  }

  datatype Added = Stored(count: nat) | Abort

  class Ring {
    const buf: array<byte>
    var head: int
    var tail: int

    /** The device; it has the record of every byte it took. */
    const device: Sink<byte>

    /** Every byte added. */
    ghost var added: seq<byte>

    ghost predicate InRange()
      reads this
    {
      buf.Length == AC3_SIZE && Apart(head, tail)
    }

    ghost function Contents(): (s: seq<byte>)
      requires InRange()
      reads this, buf
      ensures |s| == Used(head, tail)
    {
      Unread(buf[..], head, Next(tail))
    }

    ghost function Space(): (q: Queue)
      requires InRange()
      reads this
      ensures IsQueue(q)
    {
      Queue(tail, Used(head, tail))
    }

    ghost predicate Valid()
      reads this, buf, device
      ensures Valid() ==> InRange()
    {
      InRange() && added == device.taken + Contents()
    }

    lemma SizeIsUsed()
      requires InRange()
      ensures Space().used == 0 ==> Contents() == []
    {
    }

    /** The static ring as the program starts. */
    constructor ()
      ensures Valid() && fresh(buf) && fresh(device) && added == [] && device.taken == []
    {
      device := new Sink();
      buf := new byte[AC3_SIZE](_ => 0);
      head, tail := 0, AC3_SIZE - 1;
      added := [];
    }

    /** `empty_ac3`: the unread bytes are forgotten. */
    method Empty()
      requires Valid()
      modifies this
      ensures Valid() && Contents() == []
    {
      head, tail := 0, AC3_SIZE - 1;
      added := device.taken;
    }

    method FreeSpace() returns (free: int)
      requires Valid()
      ensures free == AC3_SIZE - (|added| - |device.taken|) == AC3_SIZE - Space().used
      ensures 1 < free <= AC3_SIZE
    {
      var size1, size2;
      if head >= tail {
        size1, size2 := head - tail - 1, 0;
      } else {
        size1, size2 := AC3_SIZE - tail - 1, head;
      }
      free := AC3_SIZE - (size1 + size2);
    }

    method Add(data: seq<byte>) returns (r: Added)
      requires Valid() && |data| < AC3_SIZE
      modifies this`head, this`added, buf
      ensures data == [] ==> r == Stored(0)
      ensures data != [] ==> (r.Abort? <==> !Accepts(old(head), tail, |data|))
      ensures r.Stored? ==> r.count == |data| && added == old(added) + data
      ensures r.Stored? && |data| < AC3_SIZE - 6 ==>
                Valid() && Space() == Queue(tail, old(Space()).used + |data|)
      ensures r.Abort? ==> Valid() && added == old(added)
    {
      var len := |data|;
      if len <= 0 {
        return Stored(0);
      }
      if !Accepts(head, tail, len) {
        return Abort;
      }
      ghost var unread := Contents();
      CopyAround(data);
      if len < AC3_SIZE - 6 {
        Regroup(device.taken, unread, data);
      }
      added := added + data;
      r := Stored(len);
    }

    method CopyAround(data: seq<byte>)
      requires InRange() && 0 < |data| < AC3_SIZE && Accepts(head, tail, |data|)
      modifies this`head, buf
      ensures |data| < AC3_SIZE - 6 ==> InRange() && Contents() == old(Contents()) + data
    {
      ghost var b := buf[..];
      CopyRound(data);
      if |data| < AC3_SIZE - 6 {
        AcceptsExact(old(head), tail, |data|);
        CopyAppends(b, old(head), Next(tail), data);
      }
    }

    /** The copy itself, and the move of the head. */
    method CopyRound(data: seq<byte>)
      requires InRange() && 0 < |data| < AC3_SIZE
      modifies this`head, buf
      ensures buf[..] == Copied(old(buf[..]), old(head), data) && head == Ahead(old(head), |data|)
    {
      EndIsAhead(head, |data|);
      var len, end := |data|, (head + |data|) % AC3_SIZE;
      if end > head {
        CopyIn(buf, head, data);
      } else {
        var size1 := AC3_SIZE - head;
        assert end == 0 ==> data[..size1] == data;
        CopyIn(buf, head, data[..size1]);
        if end != 0 {
          CopyIn(buf, 0, data[size1..]);
        }
      }
      head := end;
    }

    /** `ac3_flush`: a failed or short write leaves the rest for the next call.  What the
        device took and what is left are what was there, in order. */
    method Flush(room1: int, room2: int) returns (count: nat)
      requires Valid()
      modifies this`tail, device
      ensures Valid()
      ensures device.taken + Contents() == old(device.taken + Contents())
      ensures old(device.taken) <= device.taken && count == |device.taken| - |old(device.taken)|
      ensures count == FlushCount(old(Space()), room1, room2) && Space() == Flushed(old(Space()), room1, room2)
    {
      hide FlushCount, Unread;
      ghost var unread := Contents();
      count := WriteOut(room1, room2);
      FlushedTail(buf[..], head, old(tail), count);
      ghost var out, rest := unread[..count], unread[count..];
      Regroup(old(device.taken), out, rest);
      assert unread == out + rest;
    }

    /** The writes, and the move of the tail. */
    method WriteOut(room1: int, room2: int) returns (count: nat)
      requires InRange()
      modifies this`tail, device
      ensures count <= Used(head, old(tail)) == |old(Contents())|
      ensures tail == Ahead(old(tail), count)
      ensures count == FlushCount(old(Space()), room1, room2)
      ensures device.taken == old(device.taken) + old(Contents())[..count]
    {
      var size1, size2;
      if head >= tail {
        size1, size2 := head - tail - 1, 0;
      } else {
        size1, size2 := AC3_SIZE - tail - 1, head;
      }
      assert Contents() == buf[Next(tail)..Next(tail) + size1] + buf[..size2];
      if size1 + size2 == 0 {
        assert Contents()[..0] == [];
        return 0;
      }
      count := WriteParts(size1, size2, room1, room2);
      tail := (tail + count) % AC3_SIZE;
    }

    /** The bytes behind the tail, and those at the start of the ring. */
    method WriteParts(size1: nat, size2: nat, room1: int, room2: int) returns (count: nat)
      requires InRange() && Next(tail) + size1 <= AC3_SIZE && size2 <= AC3_SIZE
      requires size1 > 0 ==> tail + 1 < AC3_SIZE
      modifies device
      ensures count == TwoWrites(size1, size2, room1, room2) && count <= size1 + size2
      ensures device.taken
           == old(device.taken) + (buf[Next(tail)..Next(tail) + size1] + buf[..size2])[..count]
    {
      ghost var front, back, before := buf[Next(tail)..Next(tail) + size1], buf[..size2], device.taken;
      TakenOfTwo(front, back);
      var n1, n2 := size1, 0;
      if size1 > 0 {
        n1 := device.Write(buf[tail + 1..tail + 1 + size1], room1);
        if n1 < 0 {
          return 0;
        }
        if n1 != size1 {
          return n1;
        }
      }
      assert device.taken == before + front;
      if size2 > 0 {
        n2 := device.Write(buf[..size2], room2);
        if n2 < 0 {
          n2 := 0;
        }
      }
      Regroup(before, front, back[..n2]);
      count := n1 + n2;
    }
  }
}
