/** The settings and their items: what `add_item` writes for each setting and what
    `get_item` does with each item it reads. */
module ConfigItems {
  import opened Bytes
  import opened RecGroups

  const OSD_PROGRESS: nat := 0x09
  const OSD_PROGRAM: nat := 0x0a
  const THEME: nat := 0x11
  const RG_HIDE: nat := 0x18
  const RG_SHOW: nat := 0x19
  const RECGROUP_BIT: nat := 23

  /** The item tags. */
  predicate Known(tag: nat) {
    1 <= tag <= 0x19 || 0x20 <= tag <= 0x29 || 0x30 <= tag <= 0x36
  }

  /** The position in the bitmask of a setting's bit. */
  function Bit(tag: nat): int {
    if tag <= 0x17 then tag - 1
    else if tag <= 0x19 then RECGROUP_BIT
    else if tag <= 0x27 then tag - 7
    else if tag == 0x28 then 34
    else if tag == 0x29 then 35
    else if tag == 0x30 then 33
    else if tag == 0x31 then 36
    else if tag == 0x32 then 37
    else if tag == 0x33 then 38
    else if tag == 0x34 then 39
    else if tag == 0x35 then 40
    else 41
  }

  /** A field of fixed size, a C string in a field, or one half of the group table. */
  datatype Kind = Fixed(size: nat) | Text(capacity: nat) | Hide | Show

  function KindOf(tag: nat): Kind {
    if tag == 0x10 then Fixed(8)
    else if tag == THEME then Text(4096)
    else if tag == 0x12 || tag == 0x13 || tag == 0x22 then Text(64)
    else if tag == 0x23 || tag == 0x24 then Text(6)
    else if tag == 0x27 then Text(20)
    else if tag == RG_HIDE then Hide
    else if tag == RG_SHOW then Show
    else Fixed(4)
  }

  /** The order in which the settings are saved. */
  const SAVE_ORDER: seq<nat> :=
    [0x01, 0x02, 0x03, 0x04, 0x05, 0x06, 0x07, 0x08, 0x09, 0x0a, 0x0b, 0x0c, 0x0d, 0x0e, 0x0f, 0x10,
     0x11, 0x12, 0x13, 0x14, 0x15, 0x16, 0x17, 0x18, 0x19, 0x20, 0x21, 0x22, 0x23, 0x24, 0x25, 0x26,
     0x27, 0x34, 0x35, 0x30, 0x33, 0x31, 0x28, 0x29, 0x32, 0x36]

  /** Where a setting comes in that order. */
  ghost function Place(tag: nat): nat
    requires Known(tag)
  {
    if tag <= 0x19 then tag - 1
    else if tag <= 0x27 then tag - 7
    else if tag == 0x34 then 33
    else if tag == 0x35 then 34
    else if tag == 0x30 then 35
    else if tag == 0x33 then 36
    else if tag == 0x31 then 37
    else if tag == 0x28 then 38
    else if tag == 0x29 then 39
    else if tag == 0x32 then 40
    else 41
  }

  /** Every setting comes exactly once. */
  ghost predicate IsOrder(order: seq<nat>) {
    && (forall i :: 0 <= i < |order| ==> Known(order[i]) && Place(order[i]) == i)
    && (forall tag :: Known(tag) ==> Place(tag) < |order| && order[Place(tag)] == tag)
  }

  lemma SaveOrder()
    ensures |SAVE_ORDER| == 42 && IsOrder(SAVE_ORDER)
  {
    SavedAreKnown();
    KnownAreSaved();
  }

  lemma SavedAreKnown()
    ensures forall i :: 0 <= i < |SAVE_ORDER| ==> Known(SAVE_ORDER[i]) && Place(SAVE_ORDER[i]) == i
  {
  }

  lemma KnownAreSaved()
    ensures forall tag :: Known(tag) ==> Place(tag) < |SAVE_ORDER| && SAVE_ORDER[Place(tag)] == tag
  {
  }

  /** The two settings next to each other in their tags, bits and places. */
  lemma ProgressThenProgram()
    ensures Bit(OSD_PROGRESS) == 8 && SAVE_ORDER[8] == OSD_PROGRESS
    ensures Bit(OSD_PROGRAM) == 9 && SAVE_ORDER[9] == OSD_PROGRAM
  {
  }

  /** Settings with different tags have different bits, but for the two halves of the
      group table. */
  lemma BitsDiffer(a: nat, b: nat)
    requires Known(a) && Known(b) && a != b
    ensures Bit(a) == Bit(b) <==> Bit(a) == RECGROUP_BIT == Bit(b)
    ensures Bit(a) == RECGROUP_BIT <==> KindOf(a).Hide? || KindOf(a).Show?
  {
  }

  // ----- the settings -----

  datatype Settings = Settings(bits: set<int>, vals: map<nat, seq<byte>>, groups: seq<Group>)

  ghost predicate FitsKind(kind: Kind, val: seq<byte>) {
    match kind
    case Fixed(size) => |val| == size
    case Text(capacity) => |val| < capacity && forall i :: 0 <= i < |val| ==> val[i] != 0
    case Hide => true
    case Show => true
  }

  predicate IsGroupTag(tag: nat) {
    tag == RG_HIDE || tag == RG_SHOW
  }

  /** What the `config_t` structure can hold. */
  ghost predicate IsSettings(st: Settings) {
    && IsTable(st.groups)
    && forall tag :: Known(tag) && !IsGroupTag(tag) ==> tag in st.vals && FitsKind(KindOf(tag), st.vals[tag])
  }

  /** A structure where nothing is set. */
  ghost predicate IsBlank(st: Settings) {
    IsSettings(st) && st.bits == {} && st.groups == Blank(RG_MAX)
  }

  datatype Item = Item(tag: nat, payload: seq<byte>)

  /** The bytes saved for a setting. */
  ghost function Payload(st: Settings, tag: nat): seq<byte> {
    match KindOf(tag)
    case Hide => Packed(Labels(st.groups, true))
    case Show => Packed(Labels(st.groups, false))
    case _ => if tag in st.vals then st.vals[tag] else []
  }

  /** The setting is written: its bit is set and it is not an empty string or list. */
  ghost predicate Saves(st: Settings, tag: nat) {
    Bit(tag) in st.bits && Payload(st, tag) != []
  }

  ghost function ItemOf(st: Settings, tag: nat): seq<Item> {
    if Saves(st, tag) then [Item(tag, Payload(st, tag))] else []
  }

  /** The items of the settings in `order`. */
  ghost function ItemsOf(st: Settings, order: seq<nat>): seq<Item> {
    if order == [] then []
    else ItemsOf(st, order[..|order| - 1]) + ItemOf(st, order[|order| - 1])
  }

  // ----- reading items -----

  /** A load that met a bad item keeps what came before it. */
  datatype Loaded = Good(st: Settings) | Bad(st: Settings)

  /** The text of a `char` array. */
  function CString(s: seq<byte>): seq<byte> {
    s[..Strlen(s)]
  }

  ghost function Store(st: Settings, tag: nat, val: seq<byte>, override: bool): Settings {
    if Bit(tag) !in st.bits || override
    then st.(bits := st.bits + {Bit(tag)}, vals := st.vals[tag := val])
    else st
  }

  ghost function Apply(st: Settings, item: Item, override: bool): Loaded {
    if !Known(item.tag) then Bad(st)
    else match KindOf(item.tag)
      case Fixed(size) =>
        if size != |item.payload| then Bad(st) else Good(Store(st, item.tag, item.payload, override))
      case Text(capacity) =>
        if capacity <= |item.payload| then Bad(st)
        else Good(Store(st, item.tag, CString(item.payload), override))
      case Hide =>
        Good(st.(bits := st.bits + {RECGROUP_BIT}, groups := Unpacked(st.groups, 0, item.payload, true)))
      case Show =>
        Good(st.(bits := st.bits + {RECGROUP_BIT}, groups := Unpacked(st.groups, 0, item.payload, false)))
  }

  ghost function LoadAll(st: Settings, items: seq<Item>, override: bool): Loaded {
    if items == [] then Good(st)
    else
      var before := LoadAll(st, items[..|items| - 1], override);
      if before.Bad? then before else Apply(before.st, items[|items| - 1], override)
  }

  /** No item, good or bad, leaves a field with more than it can hold: a text is always
      shorter than its field and ends at its first zero. */
  lemma ItemKeepsSettings(st: Settings, item: Item, override: bool)
    requires IsSettings(st)
    ensures IsSettings(Apply(st, item, override).st)
  {
    hide Unpacked, Strlen;
    UnpackedIsTable(st.groups, 0, item.payload, true);
    UnpackedIsTable(st.groups, 0, item.payload, false);
  }

  // ----- what saving and loading restores -----

  ghost function SavedBits(st: Settings, order: seq<nat>): set<int> {
    if order == [] then {}
    else
      var tag := order[|order| - 1];
      SavedBits(st, order[..|order| - 1]) + if Saves(st, tag) then {Bit(tag)} else {}
  }

  ghost function SavedVals(st: Settings, order: seq<nat>): map<nat, seq<byte>> {
    if order == [] then map[]
    else
      var tag := order[|order| - 1];
      var before := SavedVals(st, order[..|order| - 1]);
      if Saves(st, tag) && !IsGroupTag(tag) then before[tag := Payload(st, tag)] else before
  }

  ghost function SavedGroups(st: Settings, order: seq<nat>): seq<Group> {
    if order == [] then Blank(RG_MAX)
    else
      var tag := order[|order| - 1];
      var before := SavedGroups(st, order[..|order| - 1]);
      if Saves(st, tag) && IsGroupTag(tag)
      then Unpacked(before, 0, Payload(st, tag), tag == RG_HIDE) else before
  }

  /** `r` holds of `st` exactly what was saved in `order`, over the empty `e`. */
  ghost predicate Restores(st: Settings, order: seq<nat>, e: Settings, r: Settings) {
    && r.bits == SavedBits(st, order)
    && r.vals == e.vals + SavedVals(st, order)
    && r.groups == SavedGroups(st, order)
  }

  ghost predicate Ordinary(st: Settings, tag: nat) {
    Known(tag) && !IsGroupTag(tag) && FitsKind(KindOf(tag), Payload(st, tag))
  }

  lemma StringIsItself(s: seq<byte>)
    requires forall i :: 0 <= i < |s| ==> s[i] != 0
    ensures CString(s) == s
  {
    assert Strlen(s) == |s|;
  }

  /** An item read back where its bit is not set yet. */
  lemma ApplyField(st: Settings, tag: nat, r: Settings, override: bool)
    requires Ordinary(st, tag) && Bit(tag) !in r.bits
    ensures Apply(r, Item(tag, Payload(st, tag)), override)
         == Good(r.(bits := r.bits + {Bit(tag)}, vals := r.vals[tag := Payload(st, tag)]))
  {
    if KindOf(tag).Text? {
      StringIsItself(Payload(st, tag));
    }
  }

  lemma ApplyGroups(st: Settings, tag: nat, r: Settings, override: bool)
    requires IsGroupTag(tag)
    ensures Apply(r, Item(tag, Payload(st, tag)), override)
         == Good(r.(bits := r.bits + {Bit(tag)},
                    groups := Unpacked(r.groups, 0, Payload(st, tag), tag == RG_HIDE)))
  {
  }

  /** The bit of an ordinary setting comes from no other one. */
  lemma {:induction false} BitIsNew(st: Settings, done: seq<nat>, tag: nat)
    requires Known(tag) && !IsGroupTag(tag) && tag !in done
    requires forall i :: 0 <= i < |done| ==> Known(done[i])
    ensures Bit(tag) !in SavedBits(st, done)
  {
    if done != [] {
      BitIsNew(st, done[..|done| - 1], tag);
      BitsDiffer(done[|done| - 1], tag);
    }
  }

  lemma Snoc(done: seq<nat>, tag: nat)
    ensures var more := done + [tag]; |more| == |done| + 1 && more[..|more| - 1] == done && more[|more| - 1] == tag
  {
  }

  lemma GroupRestored(st: Settings, done: seq<nat>, tag: nat, e: Settings, r: Settings)
    requires Restores(st, done, e, r) && IsGroupTag(tag) && Saves(st, tag)
    ensures Restores(st, done + [tag], e,
              r.(bits := r.bits + {Bit(tag)},
                 groups := Unpacked(r.groups, 0, Payload(st, tag), tag == RG_HIDE)))
  {
    Snoc(done, tag);
  }

  lemma FieldRestored(st: Settings, done: seq<nat>, tag: nat, e: Settings, r: Settings)
    requires Restores(st, done, e, r) && !IsGroupTag(tag) && Saves(st, tag)
    ensures Restores(st, done + [tag], e,
              r.(bits := r.bits + {Bit(tag)}, vals := r.vals[tag := Payload(st, tag)]))
  {
    Snoc(done, tag);
    assert e.vals + SavedVals(st, done)[tag := Payload(st, tag)] == (e.vals + SavedVals(st, done))[tag := Payload(st, tag)];
  }

  lemma NothingRestored(st: Settings, done: seq<nat>, tag: nat, e: Settings, r: Settings)
    requires Restores(st, done, e, r) && !Saves(st, tag)
    ensures Restores(st, done + [tag], e, r)
  {
    Snoc(done, tag);
  }

  lemma LoadStep(st: Settings, done: seq<nat>, tag: nat, e: Settings, r: Settings, override: bool)
    requires Restores(st, done, e, r) && Saves(st, tag)
    requires Known(tag) && (IsGroupTag(tag) || (Ordinary(st, tag) && Bit(tag) !in r.bits))
    ensures var a := Apply(r, Item(tag, Payload(st, tag)), override);
            a.Good? && Restores(st, done + [tag], e, a.st)
  {
    if IsGroupTag(tag) {
      ApplyGroups(st, tag, r, override);
      GroupRestored(st, done, tag, e, r);
    } else {
      ApplyField(st, tag, r, override);
      FieldRestored(st, done, tag, e, r);
    }
  }

  ghost predicate Distinct(order: seq<nat>) {
    && (forall i :: 0 <= i < |order| ==> Known(order[i]))
    && (forall i, j :: 0 <= i < j < |order| ==> order[i] != order[j])
  }

  lemma ItemsSnoc(st: Settings, done: seq<nat>, tag: nat)
    ensures ItemsOf(st, done + [tag])
            == if Saves(st, tag) then ItemsOf(st, done) + [Item(tag, Payload(st, tag))] else ItemsOf(st, done)
  {
    hide Saves, Payload;
    Snoc(done, tag);
    assert ItemsOf(st, done) + [] == ItemsOf(st, done);
  }

  lemma LoadSnoc(e: Settings, items: seq<Item>, item: Item, override: bool)
    requires LoadAll(e, items, override).Good?
    ensures LoadAll(e, items + [item], override) == Apply(LoadAll(e, items, override).st, item, override)
  {
    hide Apply;
    assert (items + [item])[..|items|] == items;
  }

  lemma {:induction false} LoadRestores(st: Settings, order: seq<nat>, e: Settings, override: bool)
    requires Distinct(order) && IsBlank(e)
    requires forall i :: 0 <= i < |order| ==> IsGroupTag(order[i]) || Ordinary(st, order[i])
    ensures var r := LoadAll(e, ItemsOf(st, order), override);
            r.Good? && Restores(st, order, e, r.st)
  {
    if order == [] {
      assert e.vals + map[] == e.vals;
    } else {
      hide LoadAll, ItemsOf, Apply, Saves, Payload, SavedVals, SavedGroups, IsBlank, FitsKind;
      var done, tag := order[..|order| - 1], order[|order| - 1];
      assert done + [tag] == order;
      LoadRestores(st, done, e, override);
      ItemsSnoc(st, done, tag);
      var items := ItemsOf(st, done);
      var r := LoadAll(e, items, override).st;
      if Saves(st, tag) {
        if !IsGroupTag(tag) {
          BitIsNew(st, done, tag);
        }
        LoadStep(st, done, tag, e, r, override);
        LoadSnoc(e, items, Item(tag, Payload(st, tag)), override);
      } else {
        NothingRestored(st, done, tag, e, r);
      }
    }
  }

  lemma {:induction false} SavedBitsExactly(st: Settings, order: seq<nat>, bit: int)
    ensures bit in SavedBits(st, order) <==> exists tag :: tag in order && Saves(st, tag) && Bit(tag) == bit
  {
    if order != [] {
      var front, last := order[..|order| - 1], order[|order| - 1];
      SavedBitsExactly(st, front, bit);
      assert order == front + [last];
      if bit in SavedBits(st, order) && bit !in SavedBits(st, front) {
        assert last in order && Saves(st, last) && Bit(last) == bit;
      }
    }
  }

  lemma {:induction false} SavedValsExactly(st: Settings, order: seq<nat>, tag: nat)
    ensures tag in SavedVals(st, order) <==> tag in order && Saves(st, tag) && !IsGroupTag(tag)
    ensures tag in SavedVals(st, order) ==> SavedVals(st, order)[tag] == Payload(st, tag)
  {
    if order != [] {
      var front, last := order[..|order| - 1], order[|order| - 1];
      SavedValsExactly(st, front, tag);
      assert order == front + [last];
    }
  }

  /** The table after the first `k` settings were loaded: the two items are next to
      each other. */
  ghost function GroupsAfter(st: Settings, k: nat): seq<Group> {
    if k <= 23 || RECGROUP_BIT !in st.bits then Blank(RG_MAX)
    else
      var first := Unpacked(Blank(RG_MAX), 0, Packed(Labels(st.groups, true)), true);
      if k == 24 then first else Unpacked(first, 0, Packed(Labels(st.groups, false)), false)
  }

  /** The two group settings come at places 23 and 24. */
  lemma GroupPlaces(tag: nat)
    requires Known(tag)
    ensures tag == RG_HIDE <==> Place(tag) == 23
    ensures tag == RG_SHOW <==> Place(tag) == 24
  {
  }

  /** An empty label list changes no slot. */
  lemma GroupSaved(st: Settings, tag: nat, before: seq<Group>)
    requires IsGroupTag(tag)
    ensures var hidden := tag == RG_HIDE;
            (if RECGROUP_BIT in st.bits then Unpacked(before, 0, Packed(Labels(st.groups, hidden)), hidden) else before)
            == if Saves(st, tag) then Unpacked(before, 0, Payload(st, tag), hidden) else before
  {
    hide Labels, Packed;
  }

  lemma GroupStep(st: Settings, tag: nat)
    requires Known(tag)
    ensures var before, k := GroupsAfter(st, Place(tag)), Place(tag) + 1;
            GroupsAfter(st, k) == if Saves(st, tag) && IsGroupTag(tag)
                                  then Unpacked(before, 0, Payload(st, tag), tag == RG_HIDE) else before
  {
    hide Unpacked, Packed, Labels, Saves, Payload, Known, Place;
    GroupPlaces(tag);
    if IsGroupTag(tag) {
      GroupSaved(st, tag, GroupsAfter(st, Place(tag)));
    }
  }

  lemma NoGroupsYet(st: Settings)
    ensures GroupsAfter(st, 0) == Blank(RG_MAX)
  {
  }

  lemma {:induction false} SavedGroupsAt(st: Settings, order: seq<nat>, k: nat)
    requires IsOrder(order) && k <= |order|
    ensures SavedGroups(st, order[..k]) == GroupsAfter(st, k)
  {
    hide GroupsAfter, Unpacked, Saves, Payload, Known, Place, KindOf;
    if k == 0 {
      NoGroupsYet(st);
    } else {
      SavedGroupsAt(st, order, k - 1);
      assert order[..k][..k - 1] == order[..k - 1];
      GroupStep(st, order[k - 1]);
    }
  }

  /** What loading into the empty structure `e` must give for the saved `st`: exactly
      the settings that were set and not empty come back, each with its value;
      nothing else is set, and the group table comes back compacted. */
  ghost predicate Recovered(st: Settings, e: Settings, r: Settings)
    requires IsTable(st.groups)
  {
    && (forall bit :: bit in r.bits <==> exists tag :: Known(tag) && Saves(st, tag) && Bit(tag) == bit)
    && (forall tag :: Known(tag) && !IsGroupTag(tag) && tag in e.vals ==>
          tag in r.vals && r.vals[tag] == if Saves(st, tag) then Payload(st, tag) else e.vals[tag])
    && r.groups == if RECGROUP_BIT in st.bits then Compacted(st.groups) else Blank(RG_MAX)
  }

  lemma RestoredIsRecovered(st: Settings, order: seq<nat>, e: Settings, r: Settings)
    requires IsTable(st.groups) && IsOrder(order) && |order| > 24 && Restores(st, order, e, r)
    ensures Recovered(st, e, r)
  {
    assert forall tag: nat :: Known(tag) ==> order[Place(tag)] in order;
    forall bit ensures bit in r.bits <==> exists tag :: Known(tag) && Saves(st, tag) && Bit(tag) == bit {
      SavedBitsExactly(st, order, bit);
    }
    forall tag | Known(tag) && !IsGroupTag(tag) && tag in e.vals
      ensures tag in r.vals && r.vals[tag] == if Saves(st, tag) then Payload(st, tag) else e.vals[tag]
    {
      SavedValsExactly(st, order, tag);
    }
    SavedGroupsAt(st, order, |order|);
    assert order[..|order|] == order;
    GroupsRoundTrip(st.groups);
  }

  /** Saving and loading into an empty structure, in either override mode. */
  lemma SettingsRoundTrip(st: Settings, e: Settings, override: bool)
    requires IsSettings(st) && IsBlank(e)
    ensures var r := LoadAll(e, ItemsOf(st, SAVE_ORDER), override);
            r.Good? && Recovered(st, e, r.st)
  {
    SaveOrder();
    RoundTripInOrder(st, SAVE_ORDER, e, override);
  }

  lemma RoundTripInOrder(st: Settings, order: seq<nat>, e: Settings, override: bool)
    requires IsSettings(st) && IsBlank(e) && IsOrder(order) && |order| == 42
    ensures var r := LoadAll(e, ItemsOf(st, order), override);
            r.Good? && Recovered(st, e, r.st)
  {
    LoadRestores(st, order, e, override);
    RestoredIsRecovered(st, order, e, LoadAll(e, ItemsOf(st, order), override).st);
  }

  /** The same setting by setting: what was set and not empty comes back with its value,
      and nothing else is set or touched. */
  lemma RoundTripOf(st: Settings, e: Settings, override: bool, tag: nat)
    requires IsSettings(st) && IsBlank(e) && Known(tag) && tag != RG_HIDE && tag != RG_SHOW
    ensures var r := LoadAll(e, ItemsOf(st, SAVE_ORDER), override).st;
            && tag in r.vals
            && if Bit(tag) in st.bits && st.vals[tag] != []
               then Bit(tag) in r.bits && r.vals[tag] == st.vals[tag]
               else Bit(tag) !in r.bits && r.vals[tag] == e.vals[tag]
  {
    hide LoadAll, ItemsOf, SAVE_ORDER, Known, KindOf, FitsKind, IsTable;
    SettingsRoundTrip(st, e, override);
    PayloadOf(st, tag);
    forall other | Known(other) && other != tag ensures Bit(other) != Bit(tag) {
      BitsDiffer(other, tag);
      OwnBit(tag);
    }
  }

  lemma PayloadOf(st: Settings, tag: nat)
    requires Known(tag) && !IsGroupTag(tag) && tag in st.vals
    ensures Payload(st, tag) == st.vals[tag]
  {
  }

  lemma OwnBit(tag: nat)
    requires Known(tag) && !IsGroupTag(tag)
    ensures Bit(tag) != RECGROUP_BIT
  {
  }

  /** An item is refused for an unknown tag, a field of another size, or a text that is as
      long as its field or longer, and for nothing else; refused, it changes nothing. */
  lemma RefusedExactly(st: Settings, item: Item, override: bool)
    ensures Apply(st, item, override).Bad? <==>
              || !Known(item.tag)
              || (KindOf(item.tag).Fixed? && |item.payload| != KindOf(item.tag).size)
              || (KindOf(item.tag).Text? && |item.payload| >= KindOf(item.tag).capacity)
    ensures Apply(st, item, override).Bad? ==> Apply(st, item, override).st == st
  {
    hide Unpacked;
  }

  /** A bad item stops the load; what came before it stays, what comes after is not read. */
  lemma {:induction false} BadItemStops(st: Settings, front: seq<Item>, bad: Item, rest: seq<Item>, override: bool)
    requires LoadAll(st, front, override).Good?
    requires Apply(LoadAll(st, front, override).st, bad, override).Bad?
    ensures LoadAll(st, front + [bad] + rest, override) == Bad(LoadAll(st, front, override).st)
    decreases |rest|
  {
    hide Apply;
    if rest == [] {
      assert front + [bad] + rest == front + [bad];
      LoadSnoc(st, front, bad, override);
      RefusedExactly(LoadAll(st, front, override).st, bad, override);
    } else {
      var n := |rest| - 1;
      BadItemStops(st, front, bad, rest[..n], override);
      assert (front + [bad] + rest)[..|front| + 1 + n] == front + [bad] + rest[..n];
    }
  }

  // ----- which of several values counts -----

  datatype Option<T> = None | Some(value: T)

  ghost function FirstOf(items: seq<Item>, tag: nat): Option<seq<byte>> {
    if items == [] then None
    else
      var front, last := items[..|items| - 1], items[|items| - 1];
      if FirstOf(front, tag).Some? then FirstOf(front, tag)
      else if last.tag == tag then Some(last.payload) else None
  }

  ghost function LastOf(items: seq<Item>, tag: nat): Option<seq<byte>> {
    if items == [] then None
    else
      var front, last := items[..|items| - 1], items[|items| - 1];
      if last.tag == tag then Some(last.payload) else LastOf(front, tag)
  }

  /** What a payload becomes in its field. */
  ghost function FieldValue(tag: nat, payload: seq<byte>): seq<byte> {
    if KindOf(tag).Text? then CString(payload) else payload
  }

  ghost predicate HasValue(st: Settings, tag: nat, val: seq<byte>) {
    tag in st.vals && st.vals[tag] == val
  }

  ghost predicate SameField(a: Settings, b: Settings, tag: nat) {
    (tag in a.vals <==> tag in b.vals) && (tag in a.vals ==> a.vals[tag] == b.vals[tag])
  }

  /** One item sets the bit of its own setting and touches no other setting's. */
  lemma ApplyTouches(st: Settings, item: Item, override: bool, tag: nat)
    requires Known(tag) && !IsGroupTag(tag) && Apply(st, item, override).Good?
    ensures var r := Apply(st, item, override).st;
            && (Bit(tag) in r.bits <==> Bit(tag) in st.bits || item.tag == tag)
            && st.bits <= r.bits
            && (item.tag != tag || (Bit(tag) in st.bits && !override) ==> SameField(st, r, tag))
            && (item.tag == tag && (Bit(tag) !in st.bits || override) ==>
                  HasValue(r, tag, FieldValue(tag, item.payload)))
  {
    if item.tag != tag {
      BitsDiffer(item.tag, tag);
    }
  }

  /** Without override a setting that is set stays, and one that is not gets the first
      value listed; bits are never cleared. */
  lemma {:induction false} KeepPolicy(st: Settings, items: seq<Item>, tag: nat)
    requires Known(tag) && !IsGroupTag(tag) && LoadAll(st, items, false).Good?
    ensures var r := LoadAll(st, items, false).st;
            && st.bits <= r.bits
            && (Bit(tag) in r.bits <==> Bit(tag) in st.bits || FirstOf(items, tag).Some?)
            && (Bit(tag) in st.bits || FirstOf(items, tag).None? ==> SameField(st, r, tag))
            && (Bit(tag) !in st.bits && FirstOf(items, tag).Some? ==>
                  HasValue(r, tag, FieldValue(tag, FirstOf(items, tag).value)))
  {
    if items != [] {
      var front, last := items[..|items| - 1], items[|items| - 1];
      KeepPolicy(st, front, tag);
      ApplyTouches(LoadAll(st, front, false).st, last, false, tag);
    }
  }

  /** With override a setting gets the last value listed. */
  lemma {:induction false} OverridePolicy(st: Settings, items: seq<Item>, tag: nat)
    requires Known(tag) && !IsGroupTag(tag) && LoadAll(st, items, true).Good?
    ensures var r := LoadAll(st, items, true).st;
            && st.bits <= r.bits
            && (Bit(tag) in r.bits <==> Bit(tag) in st.bits || LastOf(items, tag).Some?)
            && (LastOf(items, tag).None? ==> SameField(st, r, tag))
            && (LastOf(items, tag).Some? ==> HasValue(r, tag, FieldValue(tag, LastOf(items, tag).value)))
  {
    if items != [] {
      var front, last := items[..|items| - 1], items[|items| - 1];
      OverridePolicy(st, front, tag);
      ApplyTouches(LoadAll(st, front, true).st, last, true, tag);
    }
  }
}
