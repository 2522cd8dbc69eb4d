/** The wire form of 64-bit offsets in the Hauppauge protocol: two 32-bit words, the
    low one first, each with its most significant byte first. */
module Wire {
  import opened Bytes

  const TWO8: int := 0x100
  const TWO16: int := 0x1_0000
  const TWO24: int := 0x100_0000
  const TWO31: int := 0x8000_0000
  const TWO32: int := 0x1_0000_0000
  const TWO48: int := 0x1_0000_0000_0000
  const TWO63: int := 0x8000_0000_0000_0000
  const TWO64: int := 0x1_0000_0000_0000_0000

  predicate IsInt64(n: int) { -TWO63 <= n < TWO63 }

  /** `(src >> k) & 0xff`, for `shift` the power of two of `k`. */
  function ByteAt(src: int, shift: int): byte
    requires shift > 0
  {
    (src / shift) % 256
  }

  /** The four bytes of a word, as both macros store them. */
  function WordBytes(src: int): (s: seq<byte>)
    ensures |s| == 4
  {
    [ByteAt(src, TWO24), ByteAt(src, TWO16), ByteAt(src, TWO8), ByteAt(src, 1)]
  }

  /** `INT64_TO_BUF`: bytes 4 to 7 from the high word, bytes 0 to 3 from the low. */
  method PutInt64(src: int, dest: array<byte>, at: nat)
    requires at + 8 <= dest.Length
    modifies dest
    ensures dest[at..at + 8] == WireInt64(src)
    ensures dest[..at] == old(dest[..at]) && dest[at + 8..] == old(dest[at + 8..])
  {
    dest[at + 4] := ByteAt(src, TWO24 * TWO32);
    dest[at + 5] := ByteAt(src, TWO16 * TWO32);
    dest[at + 6] := ByteAt(src, TWO8 * TWO32);
    dest[at + 7] := ByteAt(src, TWO32);
    dest[at] := ByteAt(src, TWO24);
    dest[at + 1] := ByteAt(src, TWO16);
    dest[at + 2] := ByteAt(src, TWO8);
    dest[at + 3] := ByteAt(src, 1);
    HighBytes(src);
  }

  /** `INT64_TO_PROGBUF`: as above, but only the low half of the high word, and the
      last two bytes stay as they are. */
  method PutProgress(src: int, dest: array<byte>, at: nat)
    requires at + 8 <= dest.Length
    modifies dest
    ensures dest[at..at + 6] == WireProgress(src)
    ensures dest[..at] == old(dest[..at]) && dest[at + 6..] == old(dest[at + 6..])
  {
    dest[at + 4] := ByteAt(src, TWO8 * TWO32);
    dest[at + 5] := ByteAt(src, TWO32);
    dest[at] := ByteAt(src, TWO24);
    dest[at + 1] := ByteAt(src, TWO16);
    dest[at + 2] := ByteAt(src, TWO8);
    dest[at + 3] := ByteAt(src, 1);
  }

  ghost function WireInt64(src: int): (s: seq<byte>)
    ensures |s| == 8
  {
    WordBytes(src) + WordBytes(src / TWO32)
  }

  ghost function WireProgress(src: int): (s: seq<byte>)
    ensures |s| == 6
  {
    WordBytes(src) + [ByteAt(src, TWO8 * TWO32), ByteAt(src, TWO32)]
  }

  /** Dividing twice. */
  lemma DivTwice(src: int)
    ensures src / TWO32 / TWO8 == src / (TWO8 * TWO32)
    ensures src / TWO32 / TWO16 == src / (TWO16 * TWO32)
    ensures src / TWO32 / TWO24 == src / (TWO24 * TWO32)
  {
  }

  lemma HighBytes(src: int)
    ensures WordBytes(src / TWO32)
         == [ByteAt(src, TWO24 * TWO32), ByteAt(src, TWO16 * TWO32), ByteAt(src, TWO8 * TWO32), ByteAt(src, TWO32)]
  {
    DivTwice(src);
  }

  /** Which byte is where: the low word comes first, each word with its high byte first. */
  lemma BytesOnWire(src: int)
    ensures var s := WireInt64(src);
            && s[3] == src % 256 && s[2] == src / 0x100 % 256 && s[1] == src / 0x1_0000 % 256
            && s[0] == src / 0x100_0000 % 256
            && s[7] == src / 0x1_0000_0000 % 256 && s[6] == src / 0x100_0000_0000 % 256
            && s[5] == src / 0x1_0000_0000_0000 % 256 && s[4] == src / 0x100_0000_0000_0000 % 256
            && WireProgress(src) == s[..4] + [s[6], s[7]]
  {
    HighBytes(src);
  }

  /** The value of four bytes. */
  function Word(s: seq<byte>): (n: int)
    requires |s| == 4
    ensures 0 <= n < TWO32
  {
    TWO24 * (s[0] as int) + TWO16 * (s[1] as int) + TWO8 * (s[2] as int) + s[3]
  }

  lemma WordOfBytes(src: int)
    ensures Word(WordBytes(src)) == src % TWO32
  {
    ByteByByte(src);
    LastByte(src);
    LastByte(src / TWO8);
    LastByte(src / TWO16);
    LastByte(src / TWO24);
    LowWord(src, src / TWO24 / TWO8, Word(WordBytes(src)));
  }

  lemma ByteByByte(src: int)
    ensures src / TWO16 == src / TWO8 / TWO8 && src / TWO24 == src / TWO16 / TWO8
  {
  }

  lemma LastByte(n: int)
    ensures n == TWO8 * (n / TWO8) + n % 256
  {
  }

  lemma LowWord(src: int, high: int, low: int)
    requires src == TWO32 * high + low && 0 <= low < TWO32
    ensures src % TWO32 == low
  {
  }

  /** A 32-bit `int` with these bits. */
  function Signed32(n: int): int { if n < TWO31 then n else n - TWO32 }

  /** Arithmetic that wraps to a signed 64-bit result. */
  function Signed64(n: int): int {
    var r := n % TWO64;
    if r < TWO63 then r else r - TWO64
  }

  /** `media_offset_64`.  Both words are read as `int`; the low one goes into an
      `unsigned long`, which widens the sign when `long` has 64 bits. */
  function Offset64(s: seq<byte>, longIs64: bool): int
    requires |s| == 8
  {
    var low, high := Signed32(Word(s[..4])), Signed32(Word(s[4..]));
    var offlow := if longIs64 then low % TWO64 else low % TWO32;
    Signed64(high * TWO32 + offlow)
  }

  lemma Halves(src: int)
    requires IsInt64(src)
    ensures Signed32((src / TWO32) % TWO32) == src / TWO32
    ensures src == TWO32 * (src / TWO32) + src % TWO32
  {
  }

  /** Reading inverts writing for every offset when `long` has 32 bits, as on the
      target; when it has 64 bits, exactly for offsets with a low word below 2^31. */
  lemma OffsetRoundTrip(src: int)
    requires IsInt64(src)
    ensures Offset64(WireInt64(src), false) == src
    ensures Offset64(WireInt64(src), true) == src <==> src % TWO32 < TWO31
  {
    var s, high, low := WireInt64(src), src / TWO32, src % TWO32;
    assert s[..4] == WordBytes(src) && s[4..] == WordBytes(high);
    WordOfBytes(src);
    WordOfBytes(high);
    Halves(src);
    Together(src, high, low);
    WideTogether(src, high, low);
  }

  lemma Together(src: int, high: int, low: int)
    requires IsInt64(src) && src == TWO32 * high + low && 0 <= low < TWO32
    ensures Signed64(high * TWO32 + Signed32(low) % TWO32) == src
  {
    assert Signed32(low) % TWO32 == low;
    Itself(src);
  }

  lemma Itself(src: int)
    requires IsInt64(src)
    ensures Signed64(src) == src
  {
  }

  lemma WideTogether(src: int, high: int, low: int)
    requires IsInt64(src) && src == TWO32 * high + low && 0 <= low < TWO32
    ensures Signed64(high * TWO32 + Signed32(low) % TWO64) == src <==> low < TWO31
  {
    if low < TWO31 {
      assert Signed32(low) % TWO64 == low;
      Itself(src);
    } else {
      assert Signed32(low) % TWO64 == low - TWO32 + TWO64;
      assert high * TWO32 + Signed32(low) % TWO64 == src - TWO32 + TWO64;
      Displaced(src);
    }
  }

  lemma Displaced(src: int)
    requires IsInt64(src)
    ensures Signed64(src - TWO32 + TWO64) != src
  {
    var r := (src - TWO32 + TWO64) % TWO64;
    assert r == src - TWO32 || r == src - TWO32 + TWO64;
  }

  /** The progress message tells offsets apart exactly modulo 2^48. */
  lemma ProgressExact(a: int, b: int)
    ensures WireProgress(a) == WireProgress(b) <==> a % TWO48 == b % TWO48
  {
    ProgressValue(a);
    ProgressValue(b);
    if WireProgress(a) == WireProgress(b) {
      assert WordBytes(a) == WireProgress(a)[..4] == WordBytes(b);
      assert WireProgress(a)[4..] == WireProgress(b)[4..];
    }
  }

  ghost function Value(s: seq<byte>): int
    requires |s| == 6
  {
    Word(s[..4]) + TWO32 * (TWO8 * (s[4] as int) + s[5])
  }

  lemma HalfWord(h: int)
    ensures h % TWO16 == TWO8 * ((h / TWO8) % 256) + h % 256
  {
    var q, r := h / TWO8, h % TWO8;
    var a, b := q / 256, q % 256;
    assert h == TWO16 * a + (TWO8 * b + r);
  }

  lemma LowSixBytes(src: int)
    ensures src % TWO48 == TWO32 * ((src / TWO32) % TWO16) + src % TWO32
  {
    var h, l := src / TWO32, src % TWO32;
    var q, r := h / TWO16, h % TWO16;
    assert src == TWO48 * q + (TWO32 * r + l);
  }

  lemma ProgressValue(src: int)
    ensures Value(WireProgress(src)) == src % TWO48
    ensures forall t: seq<byte> :: |t| == 6 && Value(t) == src % TWO48 ==> t == WireProgress(src)
  {
    var s := WireProgress(src);
    assert s[..4] == WordBytes(src);
    WordOfBytes(src);
    DivTwice(src);
    HalfWord(src / TWO32);
    LowSixBytes(src);
    forall t: seq<byte> | |t| == 6 && Value(t) == src % TWO48 ensures t == s {
      SameBytes(t, s);
    }
  }

  lemma SameWord(s: seq<byte>, t: seq<byte>)
    requires |s| == 4 && |t| == 4 && Word(s) == Word(t)
    ensures s == t
  {
    assert s[0] == t[0];
    assert s[1] == t[1];
    assert s[2] == t[2];
  }

  lemma SameParts(w: int, x: int, y: int, w': int, x': int, y': int)
    requires 0 <= w < TWO32 && 0 <= x < 256 && 0 <= y < 256
    requires 0 <= w' < TWO32 && 0 <= x' < 256 && 0 <= y' < 256
    requires w + TWO32 * (TWO8 * x + y) == w' + TWO32 * (TWO8 * x' + y')
    ensures w == w' && x == x' && y == y'
  {
    assert TWO8 * x + y == TWO8 * x' + y';
  }

  lemma SameBytes(s: seq<byte>, t: seq<byte>)
    requires |s| == 6 && |t| == 6 && Value(s) == Value(t)
    ensures s == t
  {
    SameParts(Word(s[..4]), s[4] as int, s[5] as int, Word(t[..4]), t[4] as int, t[5] as int);
    SameWord(s[..4], t[..4]);
    assert s == s[..4] + s[4..] && t == t[..4] + t[4..];
  }
}
