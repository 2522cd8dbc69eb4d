/** A circular buffer seen as a sequence: what a copy to the head and a move of the
    tail do to the bytes between them. */
module Rings {

  ghost predicate Indices(size: nat, head: int, tail: int) {
    0 <= head < size && 0 <= tail < size
  }

  /** The bytes from `tail` up to `head`, going round the end; none when they meet. */
  ghost function Unread<T>(b: seq<T>, head: int, tail: int): (s: seq<T>)
    requires Indices(|b|, head, tail)
    ensures |s| == if head >= tail then head - tail else head + |b| - tail
  {
    if head >= tail then b[tail..head] else b[tail..] + b[..head]
  }

  /** The ring bytes after `data` is copied to `at`, which fits before the end. */
  ghost function Pasted<T>(b: seq<T>, at: nat, data: seq<T>): (s: seq<T>)
    requires at + |data| <= |b|
    ensures |s| == |b|
  {
    b[..at] + data + b[at + |data|..]
  }

  lemma PasteStraight<T>(b: seq<T>, head: int, tail: int, data: seq<T>)
    requires Indices(|b|, head, tail) && head + |data| < |b|
    requires |Unread(b, head, tail)| + |data| < |b|
    ensures Unread(Pasted(b, head, data), head + |data|, tail) == Unread(b, head, tail) + data
  {
    var b' := Pasted(b, head, data);
    if head >= tail {
      assert b'[tail..head + |data|] == b[tail..head] + data;
    } else {
      assert b'[tail..] == b[tail..];
      assert b'[..head + |data|] == b[..head] + data;
      assert b[tail..] + (b[..head] + data) == b[tail..] + b[..head] + data;
    }
  }

  lemma PasteToEnd<T>(b: seq<T>, head: int, tail: int, data: seq<T>)
    requires Indices(|b|, head, tail) && head + |data| == |b|
    requires |Unread(b, head, tail)| + |data| < |b|
    ensures Unread(Pasted(b, head, data), 0, tail) == Unread(b, head, tail) + data
  {
    assert Pasted(b, head, data)[tail..] == b[tail..head] + data;
  }

  /** The split copy is a copy up to the end, then one from the start. */
  lemma PasteSplit<T>(b: seq<T>, head: int, tail: int, data: seq<T>)
    requires Indices(|b|, head, tail) && |b| < head + |data|
    requires |Unread(b, head, tail)| + |data| < |b|
    ensures var room := |b| - head;
            var b' := Pasted(Pasted(b, head, data[..room]), 0, data[room..]);
            Unread(b', |data| - room, tail) == Unread(b, head, tail) + data
  {
    var room := |b| - head;
    var d1, d2 := data[..room], data[room..];
    var u, b1 := Unread(b, head, tail), Pasted(b, head, d1);
    assert data == d1 + d2;
    PasteToEnd(b, head, tail, d1);
    PasteStraight(b1, 0, tail, d2);
    assert (u + d1) + d2 == u + (d1 + d2);
  }

  /** The ring bytes after `data` is copied to `at`, going round the end. */
  ghost function Copied<T>(b: seq<T>, at: nat, data: seq<T>): (s: seq<T>)
    requires at <= |b| && |data| <= |b|
    ensures |s| == |b|
  {
    var room := |b| - at;
    if |data| <= room then Pasted(b, at, data) else Pasted(Pasted(b, at, data[..room]), 0, data[room..])
  }

  lemma CopyAppends<T>(b: seq<T>, head: int, tail: int, data: seq<T>)
    requires Indices(|b|, head, tail) && |Unread(b, head, tail)| + |data| < |b|
    ensures var end := if head + |data| < |b| then head + |data| else head + |data| - |b|;
            && Indices(|b|, end, tail)
            && Unread(Copied(b, head, data), end, tail) == Unread(b, head, tail) + data
  {
    if head + |data| < |b| {
      PasteStraight(b, head, tail, data);
    } else if head + |data| == |b| {
      PasteToEnd(b, head, tail, data);
    } else {
      PasteSplit(b, head, tail, data);
    }
  }

  /** What is taken of two pieces one after the other. */
  lemma TakenOfTwo<T>(front: seq<T>, back: seq<T>)
    ensures forall n :: 0 <= n <= |front| ==> (front + back)[..n] == front[..n]
    ensures forall n :: 0 <= n <= |back| ==> (front + back)[..|front| + n] == front + back[..n]
  {
  }

  /** What a device with room for `room` bytes takes of `asked` (negative room: the write
      fails). */
  ghost function Took(room: int, asked: int): int {
    if room < 0 then 0 else if room < asked then room else asked
  }

  /** Two writes, the second made only when the first was taken whole. */
  ghost function TwoWrites(size1: int, size2: int, room1: int, room2: int): int {
    if 0 < size1 && room1 < size1 then Took(room1, size1) else size1 + Took(room2, size2)
  }

  lemma TakenAtTail<T>(b: seq<T>, head: int, tail: int, n: nat)
    requires Indices(|b|, head, tail)
    requires n <= |Unread(b, head, tail)|
    ensures var tail' := if tail + n < |b| then tail + n else tail + n - |b|;
            && Indices(|b|, head, tail')
            && Unread(b, head, tail') == Unread(b, head, tail)[n..]
  {
    if head < tail && tail + n < |b| {
      assert b[tail + n..] == b[tail..][n..];
    }
  }

  /** A device that is written to: it keeps a record of what it took. */
  class Sink<T> {
    ghost var taken: seq<T>

    constructor ()
      ensures taken == []
    {
      taken := [];
    }

    /** `write`: a device with room for `room` bytes takes as many as it can (negative room:
        the write fails). */
    method Write(data: seq<T>, room: int) returns (n: int)
      modifies this
      ensures n == if room < 0 then -1 else if room < |data| then room else |data|
      ensures taken == old(taken) + if n < 0 then [] else data[..n]
    {
      n := if room < 0 then -1 else if room < |data| then room else |data|;
      taken := taken + if n < 0 then [] else data[..n];
    }
  }

  /** `memcpy` into the ring. */
  method CopyIn<T>(a: array<T>, at: nat, data: seq<T>)
    requires at + |data| <= a.Length
    modifies a
    ensures a[..] == Pasted(old(a[..]), at, data)
  {
    forall i | 0 <= i < |data| { a[at + i] := data[i]; }
  }
}
