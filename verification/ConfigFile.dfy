/** The config file: a header with a checksum, then the items, compressed when they
    are many.  The checksum and the compressor are parameters. */
module ConfigFile {
  import opened Bytes
  import opened RecGroups
  import opened ConfigItems

  const CONFIG_MAGIC: nat := 0x434f4e46
  const CONFIG_VERSION: nat := 1
  const FLAG_PLATFORM: nat := 2
  const FLAG_COMPRESSED: nat := 4
  const HEADER_SIZE: nat := 32
  const CONFIG_MAX_SIZE: nat := 131072
  const CONFIG_MAX_COMPRESSED_SIZE: nat := 32768
  const COMPRESS_FROM: nat := 1024

  const WORD: nat := 0x1_0000_0000
  const HALF_WORD: nat := 0x1_0000

  // ----- numbers, most significant byte first as on the target -----

  function Enc16(n: nat): (s: seq<byte>)
    requires n < HALF_WORD
    ensures |s| == 2
  {
    [n / 256, n % 256]
  }

  function Dec16(s: seq<byte>): (n: nat)
    requires |s| == 2
    ensures n < HALF_WORD
  {
    256 * (s[0] as int) + s[1]
  }

  function Enc32(n: nat): (s: seq<byte>)
    requires n < WORD
    ensures |s| == 4
  {
    Enc16(n / HALF_WORD) + Enc16(n % HALF_WORD)
  }

  function Dec32(s: seq<byte>): (n: nat)
    requires |s| == 4
    ensures n < WORD
  {
    HALF_WORD * Dec16(s[..2]) + Dec16(s[2..])
  }

  lemma Number16(n: nat)
    requires n < HALF_WORD
    ensures Dec16(Enc16(n)) == n
  {
  }

  lemma Number32(n: nat)
    requires n < WORD
    ensures Dec32(Enc32(n)) == n
  {
    var s := Enc32(n);
    assert s[..2] == Enc16(n / HALF_WORD) && s[2..] == Enc16(n % HALF_WORD);
    Number16(n / HALF_WORD);
    Number16(n % HALF_WORD);
  }

  // ----- items as bytes -----

  predicate IsItem(item: Item) {
    item.tag < HALF_WORD && |item.payload| < HALF_WORD
  }

  function ItemBytes(item: Item): seq<byte>
    requires IsItem(item)
  {
    Enc16(item.tag) + Enc16(|item.payload|) + item.payload
  }

  ghost function Body(items: seq<Item>): seq<byte>
    requires forall i :: 0 <= i < |items| ==> IsItem(items[i])
  {
    if items == [] then [] else ItemBytes(items[0]) + Body(items[1..])
  }

  /** A whole item starts the bytes. */
  predicate StartsItem(s: seq<byte>) {
    |s| >= 4 && 4 + Dec16(s[2..4]) <= |s|
  }

  function FirstItem(s: seq<byte>): Item
    requires StartsItem(s)
  {
    Item(Dec16(s[..2]), s[4..4 + Dec16(s[2..4])])
  }

  function AfterItem(s: seq<byte>): (r: seq<byte>)
    requires StartsItem(s)
    ensures |r| < |s|
  {
    s[4 + Dec16(s[2..4])..]
  }

  lemma FirstOfBody(item: Item, rest: seq<byte>)
    requires IsItem(item)
    ensures var s := ItemBytes(item) + rest;
            StartsItem(s) && FirstItem(s) == item && AfterItem(s) == rest
  {
    var s := ItemBytes(item) + rest;
    Number16(item.tag);
    Number16(|item.payload|);
    assert s[..2] == Enc16(item.tag) && s[2..4] == Enc16(|item.payload|);
    assert s[4..4 + |item.payload|] == item.payload;
    assert s[4 + |item.payload|..] == rest;
  }

  /** `parse_config`: item after item until one is bad. */
  ghost function LoadBytes(st: Settings, s: seq<byte>, override: bool): Loaded
    decreases |s|
  {
    if s == [] then Good(st)
    else if !StartsItem(s) then Bad(st)
    else
      var r := Apply(st, FirstItem(s), override);
      if r.Bad? then r else LoadBytes(r.st, AfterItem(s), override)
  }

  lemma {:induction false} LoadFirst(st: Settings, item: Item, items: seq<Item>, override: bool)
    ensures LoadAll(st, [item] + items, override)
         == if Apply(st, item, override).Bad? then Apply(st, item, override)
            else LoadAll(Apply(st, item, override).st, items, override)
  {
    var all := [item] + items;
    if items == [] {
      assert all[..0] == [];
      assert LoadAll(st, all[..0], override) == Good(st);
    } else {
      var front := items[..|items| - 1];
      assert all[..|items|] == [item] + front;
      LoadFirst(st, item, front, override);
    }
  }

  /** Reading the bytes of items is loading the items. */
  lemma {:induction false} LoadBody(st: Settings, items: seq<Item>, override: bool)
    requires forall i :: 0 <= i < |items| ==> IsItem(items[i])
    ensures LoadBytes(st, Body(items), override) == LoadAll(st, items, override)
    decreases |items|
  {
    if items != [] {
      var first, rest := items[0], items[1..];
      assert items == [first] + rest;
      FirstOfBody(first, Body(rest));
      LoadFirst(st, first, rest, override);
      var r := Apply(st, first, override);
      if r.Good? {
        LoadBody(r.st, rest, override);
      }
    }
  }

  lemma {:induction false} BodyAppend(items: seq<Item>, last: Item)
    requires IsItem(last) && forall i :: 0 <= i < |items| ==> IsItem(items[i])
    ensures Body(items + [last]) == Body(items) + ItemBytes(last)
  {
    if items == [] {
      assert ([] + [last])[1..] == [];
      assert Body([last]) == ItemBytes(last) + [];
    } else {
      assert (items + [last])[1..] == items[1..] + [last];
      BodyAppend(items[1..], last);
      Regroup(ItemBytes(items[0]), Body(items[1..]), ItemBytes(last));
    }
  }

  /** Loading any bytes, well formed or not, keeps every setting within its field. */
  lemma {:induction false} BytesKeepSettings(st: Settings, s: seq<byte>, override: bool)
    requires IsSettings(st)
    ensures IsSettings(LoadBytes(st, s, override).st)
    decreases |s|
  {
    hide IsSettings, Apply;
    if StartsItem(s) {
      var r := Apply(st, FirstItem(s), override);
      ItemKeepsSettings(st, FirstItem(s), override);
      if r.Good? {
        BytesKeepSettings(r.st, AfterItem(s), override);
      }
    }
  }

  // ----- the size of what is saved -----

  /** A bound for the item of a setting. */
  ghost function MaxItem(tag: nat): nat {
    if tag == THEME then 4100 else if IsGroupTag(tag) then 2052 else 68
  }

  lemma ItemFits(st: Settings, tag: nat)
    requires IsSettings(st) && Known(tag)
    ensures |Payload(st, tag)| + 4 <= MaxItem(tag) && IsItem(Item(tag, Payload(st, tag)))
  {
    if IsGroupTag(tag) {
      var labels := Labels(st.groups, tag == RG_HIDE);
      PackedSize(labels);
    }
  }

  ghost function MaxBody(k: nat): nat {
    68 * k + (if k > 16 then 4032 else 0) + (if k > 23 then 1984 else 0) + (if k > 24 then 1984 else 0)
  }

  ghost predicate BodyWithin(items: seq<Item>, size: nat) {
    (forall i :: 0 <= i < |items| ==> IsItem(items[i])) && |Body(items)| <= size
  }

  lemma BodyStep(items: seq<Item>, size: nat, last: Item, more: nat)
    requires BodyWithin(items, size) && |last.payload| + 4 <= more && IsItem(last)
    ensures BodyWithin(items + [last], size + more)
  {
    BodyAppend(items, last);
  }

  lemma {:induction false} BodyFits(st: Settings, order: seq<nat>, k: nat)
    requires IsSettings(st) && IsOrder(order) && k <= |order|
    ensures BodyWithin(ItemsOf(st, order[..k]), MaxBody(k))
  {
    hide Saves, Payload, IsSettings, Body, IsItem, KindOf, Known, Place, MaxBody, MaxItem;
    if k == 0 {
      NoItems(st);
    } else {
      BodyFits(st, order, k - 1);
      var done, tag := order[..k - 1], order[k - 1];
      assert order[..k] == done + [tag];
      ItemsSnoc(st, done, tag);
      ItemFits(st, tag);
      NextPlace(tag);
      var items := ItemsOf(st, done);
      if Saves(st, tag) {
        BodyStep(items, MaxBody(k - 1), Item(tag, Payload(st, tag)), MaxItem(tag));
      }
    }
  }

  lemma NoItems(st: Settings)
    ensures BodyWithin(ItemsOf(st, []), MaxBody(0))
  {
  }

  lemma NextPlace(tag: nat)
    requires Known(tag)
    ensures MaxBody(Place(tag)) + MaxItem(tag) <= MaxBody(Place(tag) + 1)
    ensures MaxBody(Place(tag)) <= MaxBody(Place(tag) + 1)
  {
    GroupPlaces(tag);
  }

  // ----- the file -----

  datatype Codec = Codec(crc: seq<byte> -> nat, deflate: seq<byte> -> seq<byte>,
                         inflate: seq<byte> -> Option<seq<byte>>)

  /** All that is assumed of zlib. */
  ghost predicate IsCodec(z: Codec) {
    && (forall s :: z.crc(s) < WORD)
    && (forall s :: z.inflate(z.deflate(s)) == Some(s))
  }

  datatype Header = Header(magic: nat, crc: nat, version: nat, buflen: nat, flags: nat, unused: seq<byte>)

  predicate IsHeader(h: Header) {
    h.magic < WORD && h.crc < WORD && h.version < WORD && h.buflen < WORD && h.flags < WORD && |h.unused| == 12
  }

  function HeaderBytes(h: Header): (s: seq<byte>)
    requires IsHeader(h)
    ensures |s| == HEADER_SIZE
  {
    Enc32(h.magic) + Enc32(h.crc) + Enc32(h.version) + Enc32(h.buflen) + Enc32(h.flags) + h.unused
  }

  function HeaderOf(s: seq<byte>): (h: Header)
    requires |s| >= HEADER_SIZE
    ensures IsHeader(h)
  {
    Header(Dec32(s[..4]), Dec32(s[4..8]), Dec32(s[8..12]), Dec32(s[12..16]), Dec32(s[16..20]), s[20..32])
  }

  /** The fields of the header are at fixed places, with their high bytes first. */
  lemma HeaderPlaces(h: Header)
    requires IsHeader(h)
    ensures var s := HeaderBytes(h);
            && At32(s, 0, h.magic) && At32(s, 4, h.crc) && At32(s, 8, h.version)
            && At32(s, 12, h.buflen) && At32(s, 16, h.flags) && s[20..32] == h.unused
  {
    hide Enc16;
    var s := HeaderBytes(h);
    BytesOf32(h.magic);
    BytesOf32(h.crc);
    BytesOf32(h.version);
    BytesOf32(h.buflen);
    BytesOf32(h.flags);
    assert s[..4] == Enc32(h.magic) && s[4..8] == Enc32(h.crc) && s[8..12] == Enc32(h.version);
    assert s[12..16] == Enc32(h.buflen) && s[16..20] == Enc32(h.flags);
  }

  /** The number stands at this place, most significant byte first. */
  ghost predicate At32(s: seq<byte>, at: nat, n: nat) {
    at + 4 <= |s| && 0x100_0000 * (s[at] as int) + 0x1_0000 * (s[at + 1] as int) + 0x100 * (s[at + 2] as int) + s[at + 3] == n
  }

  lemma BytesOf32(n: nat)
    requires n < WORD
    ensures At32(Enc32(n), 0, n)
  {
  }

  /** An item is its tag, the length of its payload, and the payload. */
  lemma ItemPlaces(item: Item)
    requires IsItem(item)
    ensures var s := ItemBytes(item);
            && |s| == 4 + |item.payload| && s[4..] == item.payload
            && 0x100 * (s[0] as int) + s[1] == item.tag && 0x100 * (s[2] as int) + s[3] == |item.payload|
  {
  }

  /** Every file starts with the letters CONF and the platform's version. */
  lemma FileStarts(z: Codec, body: seq<byte>)
    requires IsCodec(z) && |body| <= CONFIG_MAX_SIZE
    ensures FileOf(z, body).Some? ==>
              var s := FileOf(z, body).value;
              |s| >= 32 && s[..4] == [0x43, 0x4f, 0x4e, 0x46] && s[8..12] == [0, 0, 0, 1]
  {
    var crc := z.crc(HeaderBytes(PlainHeader(|body|)) + body);
    var h := PlainHeader(|body|).(crc := crc);
    StartOfHeader(h, body);
    var c := z.deflate(body);
    if |body| >= COMPRESS_FROM && |c| <= CONFIG_MAX_COMPRESSED_SIZE {
      StartOfHeader(h.(buflen := |c|, flags := FLAG_PLATFORM + FLAG_COMPRESSED), c);
    }
  }

  /** Fewer than 1024 bytes of items stand behind the header as they are, more only as
      what the compressor makes of them. */
  lemma FileShape(z: Codec, body: seq<byte>)
    requires IsCodec(z) && |body| <= CONFIG_MAX_SIZE && FileOf(z, body).Some?
    ensures var s := FileOf(z, body).value;
            && |s| >= 32
            && s[32..] == (if |body| < 1024 then body else z.deflate(body))
            && At32(s, 12, |s| - 32)
            && At32(s, 16, if |body| < 1024 then 2 else 6)
  {
    hide HeaderBytes;
    var h := PlainHeader(|body|);
    var h' := h.(crc := z.crc(HeaderBytes(h) + body));
    var c := z.deflate(body);
    HeaderAndData(h', body);
    if |body| >= COMPRESS_FROM {
      HeaderAndData(h'.(buflen := |c|, flags := FLAG_PLATFORM + FLAG_COMPRESSED), c);
    }
  }

  lemma HeaderAndData(h: Header, data: seq<byte>)
    requires IsHeader(h)
    ensures var s := HeaderBytes(h) + data;
            |s| == 32 + |data| && s[32..] == data && At32(s, 12, h.buflen) && At32(s, 16, h.flags)
  {
    HeaderPlaces(h);
  }

  lemma StartOfHeader(h: Header, data: seq<byte>)
    requires IsHeader(h) && h.magic == CONFIG_MAGIC && h.version == CONFIG_VERSION
    ensures var s := HeaderBytes(h) + data;
            |s| >= 32 && s[..4] == [0x43, 0x4f, 0x4e, 0x46] && s[8..12] == [0, 0, 0, 1]
  {
    var s := HeaderBytes(h) + data;
    assert s[..4] == Enc32(CONFIG_MAGIC) && s[8..12] == Enc32(CONFIG_VERSION);
  }

  lemma HeaderRoundTrip(h: Header, rest: seq<byte>)
    requires IsHeader(h)
    ensures HeaderOf(HeaderBytes(h) + rest) == h
    ensures (HeaderBytes(h) + rest)[HEADER_SIZE..] == rest
  {
    var s := HeaderBytes(h) + rest;
    assert s[..4] == Enc32(h.magic) && s[4..8] == Enc32(h.crc) && s[8..12] == Enc32(h.version);
    assert s[12..16] == Enc32(h.buflen) && s[16..20] == Enc32(h.flags) && s[20..32] == h.unused;
    Number32(h.magic);
    Number32(h.crc);
    Number32(h.version);
    Number32(h.buflen);
    Number32(h.flags);
  }

  function PlainHeader(buflen: nat): Header {
    Header(CONFIG_MAGIC, 0, CONFIG_VERSION, buflen, FLAG_PLATFORM, Zeros(12))
  }

  /** The file for these items, unless they do not compress into the buffer. */
  function FileOf(z: Codec, body: seq<byte>): Option<seq<byte>>
    requires |body| < WORD && z.crc(HeaderBytes(PlainHeader(|body|)) + body) < WORD
  {
    var h := PlainHeader(|body|);
    var h := h.(crc := z.crc(HeaderBytes(h) + body));
    if |body| < COMPRESS_FROM then Some(HeaderBytes(h) + body)
    else
      var c := z.deflate(body);
      if |c| > CONFIG_MAX_COMPRESSED_SIZE then None
      else Some(HeaderBytes(h.(buflen := |c|, flags := FLAG_PLATFORM + FLAG_COMPRESSED)) + c)
  }

  datatype Opened = Items(body: seq<byte>) | BadSize | BadMagic | BadVersion | BadLength | BadPlatform
                  | BadCompression | BadCrc

  predicate HasFlag(flags: nat, flag: nat)
    requires flag > 0
  {
    flags / flag % 2 == 1
  }

  /** The checks of `load_config_file`, in their order, and the bytes of the items. */
  function OpenFile(z: Codec, file: seq<byte>): Opened {
    if |file| < HEADER_SIZE then BadSize
    else
      var h, data := HeaderOf(file), file[HEADER_SIZE..];
      if h.magic != CONFIG_MAGIC then BadMagic
      else if h.version != CONFIG_VERSION then BadVersion
      else if h.buflen != |data| then BadLength
      else if !HasFlag(h.flags, FLAG_PLATFORM) then BadPlatform
      else if HasFlag(h.flags, FLAG_COMPRESSED) then
        match z.inflate(data)
        case None => BadCompression
        case Some(body) =>
          if |body| > CONFIG_MAX_SIZE + HEADER_SIZE then BadCompression
          else CheckCrc(z, Uncompressed(h, |body|), body)
      else CheckCrc(z, h, data)
  }

  function CheckCrc(z: Codec, h: Header, body: seq<byte>): Opened
    requires IsHeader(h)
  {
    if z.crc(HeaderBytes(h.(crc := 0)) + body) == h.crc then Items(body) else BadCrc
  }

  // ----- which files open -----

  /** The header of the items as they were before they were compressed. */
  function Uncompressed(h: Header, size: nat): Header
    requires HasFlag(h.flags, FLAG_COMPRESSED)
  {
    h.(buflen := size, flags := h.flags - FLAG_COMPRESSED, unused := Zeros(12))
  }

  /** A header that is the platform's, of this version, with the length of what follows. */
  ghost predicate Heads(h: Header, data: seq<byte>) {
    && IsHeader(h) && h.magic == CONFIG_MAGIC && h.version == CONFIG_VERSION
    && h.buflen == |data| && HasFlag(h.flags, FLAG_PLATFORM)
  }

  ghost predicate Checks(z: Codec, h: Header, body: seq<byte>) {
    IsHeader(h) && z.crc(HeaderBytes(h.(crc := 0)) + body) == h.crc
  }

  /** Behind the header comes the body, or what inflates to it, and the checksum is that
      of the header and the body as they were before. */
  ghost predicate Holds(z: Codec, h: Header, data: seq<byte>, body: seq<byte>) {
    if HasFlag(h.flags, FLAG_COMPRESSED) then
      && z.inflate(data) == Some(body) && |body| <= CONFIG_MAX_SIZE + HEADER_SIZE
      && Checks(z, Uncompressed(h, |body|), body)
    else data == body && Checks(z, h, body)
  }

  ghost predicate Opens(z: Codec, file: seq<byte>, body: seq<byte>) {
    exists h: Header, data: seq<byte> :: Heads(h, data) && Holds(z, h, data, body) && file == HeaderBytes(h) + data
  }

  lemma Bytes16(s: seq<byte>)
    requires |s| == 2
    ensures Enc16(Dec16(s)) == s
  {
  }

  lemma Bytes32(s: seq<byte>)
    requires |s| == 4
    ensures Enc32(Dec32(s)) == s
  {
    Bytes16(s[..2]);
    Bytes16(s[2..]);
    var high, low := Dec16(s[..2]), Dec16(s[2..]);
    assert (HALF_WORD * high + low) / HALF_WORD == high && (HALF_WORD * high + low) % HALF_WORD == low;
  }

  /** The bytes of a header are read and written without loss. */
  lemma BytesOfHeader(s: seq<byte>)
    requires |s| >= HEADER_SIZE
    ensures HeaderBytes(HeaderOf(s)) + s[HEADER_SIZE..] == s
  {
    hide Enc32, Dec32;
    Bytes32(s[..4]);
    Bytes32(s[4..8]);
    Bytes32(s[8..12]);
    Bytes32(s[12..16]);
    Bytes32(s[16..20]);
  }

  /** The checks let a file pass if and only if it is a header with a body of this
      version and platform, of the right length and with the right checksum. */
  lemma OpensExactly(z: Codec, file: seq<byte>, body: seq<byte>)
    ensures OpenFile(z, file) == Items(body) <==> Opens(z, file, body)
  {
    hide HeaderBytes, HeaderOf, HasFlag;
    if OpenFile(z, file) == Items(body) {
      BytesOfHeader(file);
      var h, data := HeaderOf(file), file[HEADER_SIZE..];
      assert Heads(h, data) && Holds(z, h, data, body);
    }
    if Opens(z, file, body) {
      var h: Header, data: seq<byte> :|
        Heads(h, data) && Holds(z, h, data, body) && file == HeaderBytes(h) + data;
      HeaderRoundTrip(h, data);
    }
  }

  /** `load_config_file` on the current settings. */
  ghost function LoadFile(z: Codec, st: Settings, file: seq<byte>, override: bool): Loaded {
    match OpenFile(z, file)
    case Items(body) => LoadBytes(st, body, override)
    case _ => Bad(st)
  }

  lemma PlainFile(z: Codec, body: seq<byte>, crc: nat)
    requires IsCodec(z) && |body| <= CONFIG_MAX_SIZE
    requires crc == z.crc(HeaderBytes(PlainHeader(|body|)) + body)
    ensures OpenFile(z, HeaderBytes(PlainHeader(|body|).(crc := crc)) + body) == Items(body)
  {
    HeaderRoundTrip(PlainHeader(|body|).(crc := crc), body);
  }

  lemma CompressedFile(z: Codec, body: seq<byte>, crc: nat)
    requires IsCodec(z) && |body| <= CONFIG_MAX_SIZE && |z.deflate(body)| <= CONFIG_MAX_COMPRESSED_SIZE
    requires crc == z.crc(HeaderBytes(PlainHeader(|body|)) + body)
    ensures var c := z.deflate(body);
            var h := PlainHeader(|body|).(crc := crc, buflen := |c|, flags := FLAG_PLATFORM + FLAG_COMPRESSED);
            OpenFile(z, HeaderBytes(h) + c) == Items(body)
  {
    var c := z.deflate(body);
    var h := PlainHeader(|body|).(crc := crc, buflen := |c|, flags := FLAG_PLATFORM + FLAG_COMPRESSED);
    HeaderRoundTrip(h, c);
    assert z.inflate(c) == Some(body);
  }

  /** A file that was written passes every check, compressed or not, and holds the
      same items. */
  lemma FileRoundTrip(z: Codec, body: seq<byte>)
    requires IsCodec(z) && |body| <= CONFIG_MAX_SIZE
    ensures FileOf(z, body).Some? ==> OpenFile(z, FileOf(z, body).value) == Items(body)
    ensures FileOf(z, body).None? <==>
              |body| >= COMPRESS_FROM && |z.deflate(body)| > CONFIG_MAX_COMPRESSED_SIZE
  {
    var crc := z.crc(HeaderBytes(PlainHeader(|body|)) + body);
    if |body| < COMPRESS_FROM {
      PlainFile(z, body, crc);
    } else if |z.deflate(body)| <= CONFIG_MAX_COMPRESSED_SIZE {
      CompressedFile(z, body, crc);
    }
  }

  /** The bytes of the saved items fit the buffer they are put together in. */
  lemma SavedBodyFits(st: Settings)
    requires IsSettings(st)
    ensures BodyWithin(ItemsOf(st, SAVE_ORDER), CONFIG_MAX_SIZE)
  {
    SaveOrder();
    BodyFits(st, SAVE_ORDER, |SAVE_ORDER|);
    assert SAVE_ORDER[..|SAVE_ORDER|] == SAVE_ORDER;
  }

  /** Save, then load into an empty structure. */
  lemma ConfigRoundTrip(z: Codec, st: Settings, e: Settings, override: bool)
    requires IsCodec(z) && IsSettings(st) && IsBlank(e)
    ensures BodyWithin(ItemsOf(st, SAVE_ORDER), CONFIG_MAX_SIZE)
    ensures var file := FileOf(z, Body(ItemsOf(st, SAVE_ORDER)));
            file.Some? ==>
              var r := LoadFile(z, e, file.value, override);
              r.Good? && Recovered(st, e, r.st)
  {
    SavedBodyFits(st);
    var items := ItemsOf(st, SAVE_ORDER);
    FileRoundTrip(z, Body(items));
    LoadBody(e, items, override);
    SettingsRoundTrip(st, e, override);
  }

  lemma OneItem(st: Settings, tag: nat)
    requires IsSettings(st) && Known(tag)
    ensures BodyWithin(ItemOf(st, tag), MaxItem(tag))
    ensures Saves(st, tag) ==>
              IsItem(Item(tag, Payload(st, tag))) && Body(ItemOf(st, tag)) == ItemBytes(Item(tag, Payload(st, tag)))
    ensures !Saves(st, tag) ==> Body(ItemOf(st, tag)) == []
  {
    ItemFits(st, tag);
    if Saves(st, tag) {
      var none, item := [], Item(tag, Payload(st, tag));
      BodyAppend(none, item);
      assert none + [item] == [item];
      assert Body(none) + ItemBytes(item) == ItemBytes(item);
    }
  }

  // ----- the code -----

  /** `config_list_t` while it is put together. */
  class ItemList {
    var buf: seq<byte>

    constructor ()
      ensures buf == []
    {
      buf := [];
    }
  }

  /** The global `config` structure. */
  class Config {
    var bitmask: set<int>
    var fields: map<nat, seq<byte>>
    var groups: seq<Group>

    function State(): Settings
      reads this
    {
      Settings(bitmask, fields, groups)
    }

    /** `add_item`; false for a tag it does not know. */
    method AddItem(list: ItemList, tag: nat) returns (ok: bool)
      requires IsSettings(State())
      modifies list
      ensures ok <==> Known(tag)
      ensures ok ==> BodyWithin(ItemOf(State(), tag), MaxItem(tag))
                     && list.buf == old(list.buf) + Body(ItemOf(State(), tag))
      ensures !ok ==> list.buf == old(list.buf)
    {
      if !Known(tag) {
        return false;
      }
      ok := true;
      OneItem(State(), tag);
      if Bit(tag) !in bitmask {
        assert list.buf + [] == list.buf;
        return;
      }
      var payload := FieldBytes(tag);
      if payload != [] {
        list.buf := list.buf + ItemBytes(Item(tag, payload));
      } else {
        assert list.buf + [] == list.buf;
      }
    }

    method FieldBytes(tag: nat) returns (payload: seq<byte>)
      requires IsSettings(State()) && Known(tag)
      ensures payload == Payload(State(), tag)
    {
      match KindOf(tag) {
        case Hide => payload := PackGroups(groups, true);
        case Show => payload := PackGroups(groups, false);
        case _ => payload := fields[tag];
      }
    }

    /** `save_config_file`: the file written, or none when it does not compress. */
    method Save(z: Codec) returns (file: Option<seq<byte>>)
      requires IsSettings(State()) && IsCodec(z)
      ensures BodyWithin(ItemsOf(State(), SAVE_ORDER), CONFIG_MAX_SIZE)
      ensures file == FileOf(z, Body(ItemsOf(State(), SAVE_ORDER)))
    {
      var list := new ItemList();
      SavedBodyFits(State());
      AddAll(list);
      file := FileOf(z, list.buf);
    }

    method AddAll(list: ItemList)
      requires IsSettings(State()) && list.buf == []
      modifies list
      ensures BodyWithin(ItemsOf(State(), SAVE_ORDER), CONFIG_MAX_SIZE)
      ensures list.buf == Body(ItemsOf(State(), SAVE_ORDER))
    {
      SaveOrder();
      ghost var st := State();
      var i := 0;
      while i < |SAVE_ORDER|
        invariant 0 <= i <= |SAVE_ORDER| && State() == st
        invariant BodyWithin(ItemsOf(st, SAVE_ORDER[..i]), MaxBody(i))
        invariant list.buf == Body(ItemsOf(st, SAVE_ORDER[..i]))
      {
        BodyFits(st, SAVE_ORDER, i + 1);
        var ok := AddItem(list, SAVE_ORDER[i]);
        NextItem(st, SAVE_ORDER, i);
        i := i + 1;
      }
      assert SAVE_ORDER[..i] == SAVE_ORDER;
    }

    /** `get_item`. */
    method GetItem(item: Item, override: bool) returns (ok: bool)
      requires IsTable(groups)
      modifies this
      ensures State() == Apply(old(State()), item, override).st
      ensures ok <==> Apply(old(State()), item, override).Good?
      ensures IsTable(groups)
    {
      ok := true;
      var tag, payload := item.tag, item.payload;
      if !Known(tag) {
        return false;
      }
      match KindOf(tag) {
        case Fixed(size) =>
          if size != |payload| {
            return false;
          }
          if Bit(tag) !in bitmask || override {
            fields := fields[tag := payload];
            bitmask := bitmask + {Bit(tag)};
          }
        case Text(capacity) =>
          if capacity <= |payload| {
            return false;
          }
          if Bit(tag) !in bitmask || override {
            fields := fields[tag := CString(payload)];
            bitmask := bitmask + {Bit(tag)};
          }
        case _ =>
          bitmask := bitmask + {RECGROUP_BIT};
          groups := UnpackGroups(groups, payload, tag == RG_HIDE);
      }
    }

    /** `parse_config`.  What was loaded before a bad item stays. */
    method ParseConfig(buf: seq<byte>, override: bool) returns (ok: bool)
      requires IsTable(groups)
      modifies this
      ensures State() == LoadBytes(old(State()), buf, override).st
      ensures ok <==> LoadBytes(old(State()), buf, override).Good?
      ensures IsTable(groups)
    {
      var rest := buf;
      while rest != []
        invariant IsTable(groups)
        invariant LoadBytes(State(), rest, override) == LoadBytes(old(State()), buf, override)
        decreases |rest|
      {
        if !StartsItem(rest) {
          return false;
        }
        ok := GetItem(FirstItem(rest), override);
        if !ok {
          return;
        }
        rest := AfterItem(rest);
      }
      ok := true;
    }

    /** `load_config_file`: one check after the other, and only a file that passes them
        all changes the settings. */
    method Load(z: Codec, file: seq<byte>, override: bool) returns (ok: bool)
      requires IsTable(groups)
      modifies this
      ensures State() == LoadFile(z, old(State()), file, override).st
      ensures ok <==> LoadFile(z, old(State()), file, override).Good?
      ensures forall body :: Opens(z, file, body) ==>
                && State() == LoadBytes(old(State()), body, override).st
                && (ok <==> LoadBytes(old(State()), body, override).Good?)
      ensures (forall body :: !Opens(z, file, body)) ==> !ok && State() == old(State())
      ensures IsTable(groups)
      ensures old(IsSettings(State())) ==> IsSettings(State())
    {
      hide LoadBytes, Opens, IsTable, IsSettings;
      forall body ensures OpenFile(z, file) == Items(body) <==> Opens(z, file, body) {
        OpensExactly(z, file, body);
      }
      var passed, body := Open(z, file);
      if !passed {
        return false;
      }
      ok := ParseConfig(body, override);
      if old(IsSettings(State())) {
        BytesKeepSettings(old(State()), body, override);
      }
    }

    static method Open(z: Codec, file: seq<byte>) returns (ok: bool, body: seq<byte>)
      ensures if ok then OpenFile(z, file) == Items(body) else !OpenFile(z, file).Items?
    {
      hide HeaderBytes, HeaderOf;
      ok, body := false, [];
      if |file| < HEADER_SIZE {
        return;
      }
      var list := HeaderOf(file);
      var data := file[HEADER_SIZE..];
      if list.magic != CONFIG_MAGIC || list.version != CONFIG_VERSION || list.buflen != |data| {
        return;
      }
      if !HasFlag(list.flags, FLAG_PLATFORM) {
        return;
      }
      if HasFlag(list.flags, FLAG_COMPRESSED) {
        var inflated := z.inflate(data);
        if inflated.None? || |inflated.value| > CONFIG_MAX_SIZE + HEADER_SIZE {
          return;
        }
        body := inflated.value;
        list := list.(buflen := |body|, flags := list.flags - FLAG_COMPRESSED, unused := Zeros(12));
      } else {
        body := data;
      }
      var crc := list.crc;
      list := list.(crc := 0);
      ok := z.crc(HeaderBytes(list) + body) == crc;
    }
  }

  lemma NextItem(st: Settings, order: seq<nat>, i: nat)
    requires IsSettings(st) && IsOrder(order) && i < |order|
    ensures BodyWithin(ItemsOf(st, order[..i]), MaxBody(i)) && BodyWithin(ItemsOf(st, order[..i + 1]), MaxBody(i + 1))
    ensures BodyWithin(ItemOf(st, order[i]), MaxItem(order[i]))
    ensures Body(ItemsOf(st, order[..i + 1])) == Body(ItemsOf(st, order[..i])) + Body(ItemOf(st, order[i]))
  {
    BodyFits(st, order, i);
    BodyFits(st, order, i + 1);
    var done, tag := order[..i], order[i];
    var items := ItemsOf(st, done);
    assert order[..i + 1][..i] == done;
    OneItem(st, tag);
    if Saves(st, tag) {
      BodyAppend(items, Item(tag, Payload(st, tag)));
    } else {
      assert items + [] == items;
      assert Body(items) + [] == Body(items);
    }
  }
}
