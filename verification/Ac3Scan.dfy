/** The AC-3 stream as a whole: which frames a greedy scan finds in it, and the PCM
    they decode to.  The syncinfo parser and the block decoder stay uninterpreted. */
module Ac3Scan {
  import opened Bytes

  const HEADER: nat := 7
  const MAX_FRAME: nat := 3840
  const BLOCK_BYTES: nat := 1024
  const BLOCKS: nat := 6

  /** `a52_syncinfo`: 0, or the length of the frame that starts with these bytes. */
  type Syncinfo = seq<byte> -> nat

  ghost predicate IsSyncinfo(sync: Syncinfo) {
    forall h :: |h| == HEADER ==> sync(h) == 0 || HEADER < sync(h) <= MAX_FRAME
  }

  /** `a52_frame` and `a52_block`: the blocks got from a frame, after those before it.
      A decoding error cuts the list short. */
  type Decoder = (seq<seq<byte>>, seq<byte>) -> seq<seq<byte>>

  ghost predicate IsDecoder(decode: Decoder) {
    forall before, frame ::
      && |decode(before, frame)| <= BLOCKS
      && forall i :: 0 <= i < |decode(before, frame)| ==> |decode(before, frame)[i]| == BLOCK_BYTES
  }

  /** Step one byte where there is no frame, or over a whole frame. */
  ghost function Frames(sync: Syncinfo, s: seq<byte>): seq<seq<byte>>
    requires IsSyncinfo(sync)
    decreases |s|
  {
    if |s| < HEADER then []
    else
      var n := sync(s[..HEADER]);
      if n == 0 then Frames(sync, s[1..])
      else if |s| < n then []
      else [s[..n]] + Frames(sync, s[n..])
  }

  /** What the scan has not decided yet. */
  ghost function Pending(sync: Syncinfo, s: seq<byte>): seq<byte>
    requires IsSyncinfo(sync)
    decreases |s|
  {
    if |s| < HEADER then s
    else
      var n := sync(s[..HEADER]);
      if n == 0 then Pending(sync, s[1..])
      else if |s| < n then s
      else Pending(sync, s[n..])
  }

  lemma {:induction false} ScanResumes(sync: Syncinfo, a: seq<byte>, b: seq<byte>)
    requires IsSyncinfo(sync)
    ensures Frames(sync, a + b) == Frames(sync, a) + Frames(sync, Pending(sync, a) + b)
    ensures Pending(sync, a + b) == Pending(sync, Pending(sync, a) + b)
    decreases |a|
  {
    if |a| >= HEADER {
      assert (a + b)[..HEADER] == a[..HEADER];
      var n := sync(a[..HEADER]);
      if n == 0 {
        assert (a + b)[1..] == a[1..] + b;
        ScanResumes(sync, a[1..], b);
      } else if n <= |a| {
        assert (a + b)[n..] == a[n..] + b;
        assert (a + b)[..n] == a[..n];
        ScanResumes(sync, a[n..], b);
      }
    }
  }

  /** Bytes short of a header, or of the frame their header announces, stay pending. */
  lemma StillPartial(sync: Syncinfo, partial: seq<byte>, wanted: nat)
    requires IsSyncinfo(sync) && |partial| < wanted
    requires wanted == HEADER || (|partial| >= HEADER && HEADER < wanted == sync(partial[..HEADER]))
    ensures Frames(sync, partial) == [] && Pending(sync, partial) == partial
  {
  }

  lemma WholeFrame(sync: Syncinfo, cur: seq<byte>)
    requires IsSyncinfo(sync) && |cur| >= HEADER && sync(cur[..HEADER]) == |cur|
    ensures Frames(sync, cur) == [cur] && Pending(sync, cur) == []
  {
    assert cur[..|cur|] == cur;
  }

  /** No byte is lost or invented: what is emitted and what is pending come from
      disjoint stretches of the stream, in order. */
  ghost predicate Covers(s: seq<byte>, frames: seq<seq<byte>>, rest: seq<byte>)
    decreases |s|
  {
    || (frames == [] && s == rest)
    || (s != [] && Covers(s[1..], frames, rest))
    || (frames != [] && frames[0] != [] && frames[0] <= s
        && Covers(s[|frames[0]|..], frames[1..], rest))
  }

  lemma {:induction false} ScanCovers(sync: Syncinfo, s: seq<byte>)
    requires IsSyncinfo(sync)
    ensures Covers(s, Frames(sync, s), Pending(sync, s))
    decreases |s|
  {
    if |s| >= HEADER {
      var n := sync(s[..HEADER]);
      if n == 0 {
        ScanCovers(sync, s[1..]);
      } else if n <= |s| {
        ScanCovers(sync, s[n..]);
        var frames := Frames(sync, s);
        assert frames[0] == s[..n] && frames[1..] == Frames(sync, s[n..]);
      }
    }
  }

  /** What a header at this place would be. */
  ghost function Window(s: seq<byte>, at: nat): (h: seq<byte>)
    requires at + HEADER <= |s|
    ensures |h| == HEADER
  {
    s[at..at + HEADER]
  }

  /** No frame starts at any of the first `n` bytes. */
  ghost predicate NoStarts(sync: Syncinfo, s: seq<byte>, n: nat) {
    n + HEADER <= |s| && forall i :: 0 <= i < n ==> sync(Window(s, i)) == 0
  }

  /** The first frame is found wherever it starts, and the scan goes on behind it. */
  lemma {:induction false} FindsFrame(sync: Syncinfo, s: seq<byte>, n: nat)
    requires IsSyncinfo(sync) && NoStarts(sync, s, n)
    requires 0 < sync(Window(s, n)) && n + sync(Window(s, n)) <= |s|
    ensures var end := n + sync(Window(s, n));
            Frames(sync, s) == [s[n..end]] + Frames(sync, s[end..])
    decreases n
  {
    hide Frames, Window, IsSyncinfo;
    var length := sync(Window(s, n));
    FirstByte(sync, s);
    if n == 0 {
      assert s[0..length] == s[..length];
    } else {
      var t := s[1..];
      forall i: nat | i + HEADER < |s| ensures Window(t, i) == Window(s, i + 1) {
        WindowOfRest(s, i);
      }
      assert t[n - 1..n - 1 + length] == s[n..n + length] && t[n - 1 + length..] == s[n + length..];
      FindsFrame(sync, t, n - 1);
    }
  }

  lemma WindowOfRest(s: seq<byte>, i: nat)
    requires i + HEADER < |s|
    ensures Window(s[1..], i) == Window(s, i + 1)
  {
  }

  lemma FirstByte(sync: Syncinfo, s: seq<byte>)
    requires IsSyncinfo(sync) && |s| >= HEADER
    ensures var length := sync(Window(s, 0));
            && (length == 0 ==> Frames(sync, s) == Frames(sync, s[1..]))
            && (0 < length <= |s| ==> Frames(sync, s) == [s[..length]] + Frames(sync, s[length..]))
  {
    assert Window(s, 0) == s[..HEADER];
  }

  /** The PCM of a list of frames. */
  ghost function Pcm(decode: Decoder, frames: seq<seq<byte>>): seq<byte> {
    if frames == [] then []
    else
      var k := |frames| - 1;
      Pcm(decode, frames[..k]) + Flatten(decode(frames[..k], frames[k]))
  }

  lemma PcmAppend(decode: Decoder, frames: seq<seq<byte>>, frame: seq<byte>)
    ensures Pcm(decode, frames + [frame]) == Pcm(decode, frames) + Flatten(decode(frames, frame))
  {
    assert (frames + [frame])[..|frames|] == frames;
  }
}
