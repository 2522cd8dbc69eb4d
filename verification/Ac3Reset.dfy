/** What it costs that the framer is not reset between files: when the bytes left over
    from one file spoil the frames of the next. */
module Ac3Reset {
  import opened Bytes
  import opened Ac3Scan

  /** No header starts with these bytes, whatever follows. */
  ghost predicate StartsNone(sync: Syncinfo, p: seq<byte>) {
    forall x: seq<byte> :: |p + x| == HEADER ==> sync(p + x) == 0
  }

  /** The bytes left over are short of a header, and none of them can start one. */
  ghost predicate Harmless(sync: Syncinfo, p: seq<byte>) {
    |p| < HEADER && forall i :: 0 <= i < |p| ==> StartsNone(sync, p[i..])
  }

  /** Nothing left over is handed to the decoder with the next file. */
  ghost predicate Separate(sync: Syncinfo, base: seq<byte>)
    requires IsSyncinfo(sync)
  {
    forall file :: Frames(sync, base + file) == Frames(sync, base) + Frames(sync, file)
  }

  lemma {:induction false} LeftOverStays(sync: Syncinfo, s: seq<byte>)
    requires IsSyncinfo(sync)
    ensures var p := Pending(sync, s);
            Pending(sync, p) == p && (|p| >= HEADER ==> sync(p[..HEADER]) > |p|)
    decreases |s|
  {
    if |s| >= HEADER {
      var n := sync(s[..HEADER]);
      if n == 0 {
        LeftOverStays(sync, s[1..]);
      } else if n <= |s| {
        LeftOverStays(sync, s[n..]);
      }
    }
  }

  lemma {:induction false} FirstFrameFits(sync: Syncinfo, s: seq<byte>)
    requires IsSyncinfo(sync)
    ensures Frames(sync, s) != [] ==> |Frames(sync, s)[0]| <= |s|
    decreases |s|
  {
    if |s| >= HEADER && sync(s[..HEADER]) == 0 {
      FirstFrameFits(sync, s[1..]);
    }
  }

  /** Where no header can start the scan steps on. */
  lemma StepsOver(sync: Syncinfo, p: seq<byte>, file: seq<byte>)
    requires IsSyncinfo(sync) && 0 < |p| < HEADER && StartsNone(sync, p)
    ensures Frames(sync, p + file) == Frames(sync, p[1..] + file)
  {
    var s := p + file;
    assert s[1..] == p[1..] + file;
    if |s| >= HEADER {
      assert s[..HEADER] == p + file[..HEADER - |p|];
    }
  }

  lemma {:induction false} HarmlessSeparates(sync: Syncinfo, p: seq<byte>, file: seq<byte>)
    requires IsSyncinfo(sync) && Harmless(sync, p)
    ensures Frames(sync, p + file) == Frames(sync, file)
    decreases |p|
  {
    if p == [] {
      assert p + file == file;
    } else {
      assert p[0..] == p;
      StepsOver(sync, p, file);
      assert forall i :: 0 <= i < |p| - 1 ==> p[1..][i..] == p[i + 1..];
      HarmlessSeparates(sync, p[1..], file);
    }
  }

  /** A header that starts in the bytes left over makes a frame with bytes of both. */
  lemma MixedFrame(sync: Syncinfo, p: seq<byte>, x: seq<byte>) returns (file: seq<byte>)
    requires IsSyncinfo(sync) && p != []
    requires |p + x| >= HEADER && sync((p + x)[..HEADER]) >= |p + x|
    ensures Frames(sync, p + file) != Frames(sync, file)
  {
    var n := sync((p + x)[..HEADER]);
    file := x + Zeros(n - |p + x|);
    var s := p + file;
    assert s[..HEADER] == (p + x)[..HEADER];
    assert s[..n] == s;
    FirstFrameFits(sync, file);
  }

  lemma {:induction false} Spoils(sync: Syncinfo, p: seq<byte>) returns (file: seq<byte>)
    requires IsSyncinfo(sync) && !Harmless(sync, p)
    requires |p| >= HEADER ==> sync(p[..HEADER]) > |p|
    ensures Frames(sync, p + file) != Frames(sync, file)
    decreases |p|
  {
    if |p| >= HEADER {
      assert p + [] == p;
      file := MixedFrame(sync, p, []);
    } else if StartsNone(sync, p) {
      var i :| 0 <= i < |p| && !StartsNone(sync, p[i..]);
      assert p[0..] == p;
      assert p[1..][i - 1..] == p[i..];
      file := Spoils(sync, p[1..]);
      StepsOver(sync, p, file);
    } else {
      var x: seq<byte> :| |p + x| == HEADER && sync(p + x) != 0;
      assert (p + x)[..HEADER] == p + x;
      file := MixedFrame(sync, p, x);
    }
  }

  /** The next file is framed on its own, whatever it is, if and only if no header can
      start in the bytes left over. */
  lemma SeparateExact(sync: Syncinfo, base: seq<byte>)
    requires IsSyncinfo(sync)
    ensures Separate(sync, base) <==> Harmless(sync, Pending(sync, base))
  {
    var p := Pending(sync, base);
    forall file
      ensures Frames(sync, base + file) == Frames(sync, base) + Frames(sync, p + file)
    {
      ScanResumes(sync, base, file);
    }
    if Harmless(sync, p) {
      forall file ensures Frames(sync, base + file) == Frames(sync, base) + Frames(sync, file) {
        HarmlessSeparates(sync, p, file);
      }
    } else {
      LeftOverStays(sync, base);
      var file := Spoils(sync, p);
      CancelPrefix(Frames(sync, base), Frames(sync, p + file), Frames(sync, file));
      assert Frames(sync, base + file) != Frames(sync, base) + Frames(sync, file);
    }
  }

  lemma NextFile(sync: Syncinfo, base: seq<byte>, file: seq<byte>)
    requires IsSyncinfo(sync)
    ensures Harmless(sync, Pending(sync, base)) ==>
              Frames(sync, base + file) == Frames(sync, base) + Frames(sync, file)
  {
    SeparateExact(sync, base);
  }

  /** A parser that knows only the two bytes of the sync word and frames of eight bytes. */
  const SYNC_WORD: Syncinfo := s => if |s| >= 2 && s[0] == 0x0b && s[1] == 0x77 then 8 else 0

  /** A file that ends with the first byte of the sync word takes the first frame of the
      next one away: with the next file alone the decoder gets one frame, with the byte
      left over it gets another one instead. */
  lemma NextFileSpoiled()
    ensures IsSyncinfo(SYNC_WORD)
    ensures var base: seq<byte> := [0x0b];
            var file: seq<byte> := [0x77, 0x0b, 0x77, 1, 2, 3, 4, 5, 6];
            && Frames(SYNC_WORD, base) == []
            && Frames(SYNC_WORD, file) == [file[1..]]
            && Frames(SYNC_WORD, base + file) == [base + file[..7]]
  {
    var base: seq<byte> := [0x0b];
    var file: seq<byte> := [0x77, 0x0b, 0x77, 1, 2, 3, 4, 5, 6];
    var own, both := file[1..], base + file;
    assert own[..8] == own && Frames(SYNC_WORD, own[8..]) == [];
    assert Frames(SYNC_WORD, own) == [own];
    assert both[..8] == base + file[..7] && Frames(SYNC_WORD, both[8..]) == [];
  }
}
