/** The insanity guard of `http_read_stream`: which streams in good order meet it.

    While a metadata block is skipped the code adds, with every packet, all that is
    left of the block to `metaIgnored`, not only what the packet held.  So the guard
    depends on how the block is cut into packets. */
module IcyAbort {
  import opened Bytes
  import opened IcyMeter

  /** Every length byte in `s`, read from `ph` onwards, announces at most `most` bytes. */
  ghost predicate BlocksUpTo(metaInt: nat, ph: Phase, s: seq<byte>, most: nat)
    decreases |s|, if ph.Meta? then 1 else 0
  {
    match ph
    case Audio(left) =>
      |s| <= left || (MetaLen(s[left]) <= most
                      && BlocksUpTo(metaInt, Meta(MetaLen(s[left])), s[left + 1..], most))
    case Meta(left) =>
      |s| < left || BlocksUpTo(metaInt, Audio(metaInt), s[left..], most)
  }

  lemma {:induction false} BlocksCut(metaInt: nat, ph: Phase, a: seq<byte>, b: seq<byte>, most: nat)
    ensures BlocksUpTo(metaInt, ph, a + b, most)
            <==> BlocksUpTo(metaInt, ph, a, most) && BlocksUpTo(metaInt, PhaseAfter(metaInt, ph, a), b, most)
    decreases |a|, if ph.Meta? then 1 else 0
  {
    match ph
    case Audio(left) =>
      if |a| <= left {
        if |a + b| > left {
          assert (a + b)[left + 1..] == b[left - |a| + 1..];
        }
      } else {
        assert (a + b)[left + 1..] == a[left + 1..] + b;
        BlocksCut(metaInt, Meta(MetaLen(a[left])), a[left + 1..], b, most);
      }
    case Meta(left) =>
      if |a| < left {
        if |a + b| >= left {
          assert (a + b)[left..] == b[left - |a|..];
        }
      } else {
        assert (a + b)[left..] == a[left..] + b;
        BlocksCut(metaInt, Audio(metaInt), a[left..], b, most);
      }
  }

  /** r + (r - 1) + ... + 1 */
  ghost function Sum(r: nat): nat {
    if r == 0 then 0 else r + Sum(r - 1)
  }

  lemma {:induction false} SumIs(r: nat)
    ensures 2 * Sum(r) == r * (r + 1)
  {
    if r > 0 {
      SumIs(r - 1);
      assert r * (r + 1) == (r - 1) * r + 2 * r;
    }
  }

  lemma {:induction false} SumGrows(r: nat, s: nat)
    requires r <= s
    ensures Sum(r) <= Sum(s)
  {
    if r < s {
      SumGrows(r, s - 1);
    }
  }

  /** Blocks up to this size are safe however they are cut. */
  const SAFE: nat := 80

  /** What the counters keep inside a block of at most SAFE bytes. */
  ghost predicate Calm(metaInt: nat, m: Meter) {
    && m.metaRead >= 0
    && (m.metaRead > metaInt ==>
          var left := m.metaRead - metaInt;
          && left <= SAFE && 0 <= m.metaStart <= SAFE
          && m.metaIgnored + Sum(left) <= Sum(SAFE) + 1)
  }

  lemma StaysCalm(metaInt: nat, m: Meter, msg: seq<byte>)
    requires metaInt >= STREAM_PACKET_SIZE - 1 && 0 < |msg| <= STREAM_PACKET_SIZE
    requires Calm(metaInt, m) && BlocksUpTo(metaInt, PhaseOf(metaInt, m.metaRead), msg, SAFE + 15)
    ensures var p := Packet(metaInt, m, msg);
            p.Fed? && Calm(metaInt, p.meter)
  {
    SumIs(SAFE);
    var n := |msg|;
    if m.metaRead > metaInt {
      var left := m.metaRead - metaInt;
      if n < left {
        SumGrows(left - n, left - 1);
      }
    } else if m.metaRead < n {
      var end := m.metaRead + 1 + MetaLen(msg[m.metaRead]);
      assert MetaLen(msg[m.metaRead]) <= SAFE;
      if end > n {
        SumGrows(end - n - 1, SAFE - 1);
      }
    }
  }

  /** Blocks of at most SAFE bytes never meet the guard, however they are cut. */
  lemma {:induction false} SmallBlocksPass(metaInt: nat, m: Meter, msgs: seq<seq<byte>>)
    requires metaInt >= STREAM_PACKET_SIZE - 1 && Calm(metaInt, m)
    requires Packets(msgs) && [] !in msgs
    requires BlocksUpTo(metaInt, PhaseOf(metaInt, m.metaRead), Flatten(msgs), SAFE + 15)
    ensures Feed(metaInt, m, msgs).Fed?
    decreases |msgs|
  {
    if msgs != [] {
      var ph := PhaseOf(metaInt, m.metaRead);
      assert msgs[0] in msgs;
      BlocksCut(metaInt, ph, msgs[0], Flatten(msgs[1..]), SAFE + 15);
      StaysCalm(metaInt, m, msgs[0]);
      PacketsFit(metaInt, m.metaRead, msgs[0]);
      PacketExact(metaInt, m, msgs[0]);
      SmallBlocksPass(metaInt, Packet(metaInt, m, msgs[0]).meter, msgs[1..]);
    }
  }

  /** Packets of one byte each. */
  ghost function Singles(k: nat): (msgs: seq<seq<byte>>)
    ensures Packets(msgs) && [] !in msgs && Flatten(msgs) == Zeros(k)
  {
    if k == 0 then []
    else
      assert [0] + Zeros(k - 1) == Zeros(k);
      [[0]] + Singles(k - 1)
  }

  lemma {:induction false} SinglesAbort(metaInt: nat, m: Meter, left: nat)
    requires 0 < metaInt && m.metaRead == metaInt + left && 0 < left
    requires m.metaStart >= 0 && m.metaIgnored + Sum(left) > META_INSANE + 1
    ensures Feed(metaInt, m, Singles(left)) == Aborted
    decreases left
  {
    var msgs := Singles(left);
    assert msgs[0] == [0] && msgs[1..] == Singles(left - 1);
    if left == 1 {
      assert Sum(1) == 1 + Sum(0);
    } else {
      var p := Packet(metaInt, m, [0]);
      if p.Fed? {
        SinglesAbort(metaInt, p.meter, left - 1);
      }
    }
  }

  /** Packets with data, from inside the audio, with blocks of at most `most` bytes. */
  ghost predicate Sane(metaInt: nat, m: Meter, msgs: seq<seq<byte>>, most: nat) {
    && 0 <= m.metaRead <= metaInt && Packets(msgs) && [] !in msgs
    && BlocksUpTo(metaInt, Audio(m.metaRead), Flatten(msgs), most)
  }

  /** A length byte of six, and the 96 bytes of its block one by one. */
  ghost function Trickle(): (msgs: seq<seq<byte>>)
    ensures Packets(msgs) && [] !in msgs && Flatten(msgs) == [6] + Zeros(96)
    ensures msgs != [] && msgs[0] == [6] && msgs[1..] == Singles(96)
  {
    [[6]] + Singles(96)
  }

  lemma TrickleIsSane(metaInt: nat)
    ensures Sane(metaInt, Meter(0, 0, 0), Trickle(), 96)
  {
    var s := [6] + Zeros(96);
    assert s[1..] == Zeros(96) && MetaLen(s[0]) == 96;
    assert BlocksUpTo(metaInt, Meta(96), Zeros(96), 96) by {
      assert Zeros(96)[96..] == [];
    }
  }

  lemma TrickleAborts(metaInt: nat)
    requires metaInt > 0
    ensures Feed(metaInt, Meter(0, 0, 0), Trickle()) == Aborted
  {
    var msgs, m := Trickle(), Meter(metaInt + 96, 96, 1);
    assert Packet(metaInt, Meter(0, 0, 0), msgs[0]) == Fed(m, []);
    SumIs(96);
    SinglesAbort(metaInt, m, 96);
  }

  /** No cutting of such a stream into packets meets the guard. */
  ghost predicate NeverInsane(metaInt: nat, most: nat) {
    forall m: Meter, msgs: seq<seq<byte>> :: Sane(metaInt, m, msgs, most) ==> Feed(metaInt, m, msgs) != Aborted
  }

  /** The guard lets every stream of blocks of at most `most` bytes pass if and only if
      `most` is less than 96, that is, if every length byte is at most five. */
  lemma GuardExact(metaInt: nat, most: nat)
    requires metaInt >= STREAM_PACKET_SIZE - 1
    ensures NeverInsane(metaInt, most) <==> most < SAFE + 16
  {
    if most < SAFE + 16 {
      forall m: Meter, msgs: seq<seq<byte>> | Sane(metaInt, m, msgs, most)
        ensures Feed(metaInt, m, msgs) != Aborted
      {
        BlocksGrow(metaInt, Audio(m.metaRead), Flatten(msgs), most, SAFE + 15);
        SmallBlocksPass(metaInt, m, msgs);
      }
    } else {
      TrickleAborts(metaInt);
      TrickleIsSane(metaInt);
      BlocksGrow(metaInt, Audio(0), Flatten(Trickle()), 96, most);
      assert Sane(metaInt, Meter(0, 0, 0), Trickle(), most);
    }
  }

  lemma {:induction false} BlocksGrow(metaInt: nat, ph: Phase, s: seq<byte>, most: nat, more: nat)
    requires most <= more && BlocksUpTo(metaInt, ph, s, most)
    ensures BlocksUpTo(metaInt, ph, s, more)
    decreases |s|, if ph.Meta? then 1 else 0
  {
    match ph
    case Audio(left) =>
      if |s| > left {
        BlocksGrow(metaInt, Meta(MetaLen(s[left])), s[left + 1..], most, more);
      }
    case Meta(left) =>
      if |s| >= left {
        BlocksGrow(metaInt, Audio(metaInt), s[left..], most, more);
      }
  }

  /** What a socket delivers after the end of the stream. */
  ghost function Nothing(k: nat): (msgs: seq<seq<byte>>)
    ensures |msgs| == k
  {
    if k == 0 then [] else [[]] + Nothing(k - 1)
  }

  lemma QuietTurn(metaInt: nat, m: Meter, k: nat)
    requires 0 < metaInt < m.metaRead && k > 0
    ensures var left := m.metaRead - metaInt;
            Feed(metaInt, m, Nothing(k)) == Aborted
            <==> m.metaStart + m.metaIgnored > META_INSANE
                 || Feed(metaInt, Meter(m.metaRead, left, m.metaIgnored + left), Nothing(k - 1)) == Aborted
  {
    var none: seq<byte> := [];
    var msgs := Nothing(k);
    assert msgs[0] == none && msgs[1..] == Nothing(k - 1);
  }

  /** `left` added up `k` times. */
  ghost function Times(k: nat, left: nat): nat {
    if k == 0 then 0 else left + Times(k - 1, left)
  }

  /** So many turns with `left` bytes left add up to more than the guard allows. */
  ghost predicate TooMuch(start: int, ignored: int, left: nat, k: nat) {
    || (k >= 1 && start + ignored > META_INSANE)
    || (k >= 2 && ignored + Times(k, left) > META_INSANE)
  }

  lemma TooMuchStep(start: int, ignored: int, left: nat, k: nat)
    requires k > 0 && left > 0
    ensures TooMuch(start, ignored, left, k)
            <==> start + ignored > META_INSANE || TooMuch(left, ignored + left, left, k - 1)
  {
    assert Times(1, left) == left + Times(0, left);
    if k > 1 {
      assert Times(k - 1, left) == left + Times(k - 2, left);
    }
  }

  /** When the stream ends inside a metadata block while the ring still plays, each
      further turn adds what is left of the block again: the guard is met within `k`
      turns if and only if these add up to more than it allows. */
  lemma {:induction false} EndInsideBlock(metaInt: nat, m: Meter, k: nat)
    requires 0 < metaInt < m.metaRead
    ensures Feed(metaInt, m, Nothing(k)) == Aborted
            <==> TooMuch(m.metaStart, m.metaIgnored, m.metaRead - metaInt, k)
    decreases k
  {
    if k > 0 {
      var left := m.metaRead - metaInt;
      QuietTurn(metaInt, m, k);
      EndInsideBlock(metaInt, Meter(m.metaRead, left, m.metaIgnored + left), k - 1);
      TooMuchStep(m.metaStart, m.metaIgnored, left, k);
    }
  }
}
