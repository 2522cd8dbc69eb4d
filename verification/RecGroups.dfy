/** The recording-group table of the settings and its two config items: the labels
    to hide and the labels to show, each a list of C strings. */
module RecGroups {
  import opened Bytes

  const RG_MAX: nat := 32
  const LABEL_SIZE: nat := 64
  const PACK_SIZE: nat := 4096

  datatype Group = Group(name: seq<byte>, hidden: bool)

  const EMPTY_GROUP: Group := Group([], false)

  /** What a `char[64]` label can hold. */
  ghost predicate IsLabel(s: seq<byte>) {
    |s| < LABEL_SIZE && forall i :: 0 <= i < |s| ==> s[i] != 0
  }

  ghost predicate IsTable(groups: seq<Group>) {
    |groups| == RG_MAX && forall i :: 0 <= i < |groups| ==> IsLabel(groups[i].name)
  }

  /** The labels in use with this flag, in slot order. */
  ghost function Labels(groups: seq<Group>, hidden: bool): (r: seq<seq<byte>>)
    ensures |r| <= |groups|
    ensures (forall i :: 0 <= i < |groups| ==> IsLabel(groups[i].name)) ==>
              forall i :: 0 <= i < |r| ==> IsLabel(r[i]) && r[i] != []
  {
    if groups == [] then []
    else
      var last := groups[|groups| - 1];
      Labels(groups[..|groups| - 1], hidden)
      + if last.name != [] && last.hidden == hidden then [last.name] else []
  }

  lemma LabelsSnoc(groups: seq<Group>, i: nat, hidden: bool)
    requires i < |groups|
    ensures var g := groups[i];
            Labels(groups[..i + 1], hidden)
            == if g.name != [] && g.hidden == hidden then Labels(groups[..i], hidden) + [g.name]
               else Labels(groups[..i], hidden)
  {
    assert groups[..i + 1][..i] == groups[..i];
  }

  /** The label of one group, when it has this flag. */
  ghost function LabelOf(g: Group, hidden: bool): seq<seq<byte>> {
    if g.name != [] && g.hidden == hidden then [g.name] else []
  }

  lemma LabelsAppend(groups: seq<Group>, g: Group, hidden: bool)
    ensures Labels(groups + [g], hidden) == Labels(groups, hidden) + LabelOf(g, hidden)
  {
    assert (groups + [g])[..|groups|] == groups;
  }

  lemma NoLabels(hidden: bool)
    ensures Labels([], hidden) == []
  {
  }

  /** A list of labels as C strings. */
  ghost function Packed(labels: seq<seq<byte>>): seq<byte> {
    if labels == [] then []
    else labels[0] + [0] + Packed(labels[1..])
  }

  lemma {:induction false} PackedAppend(labels: seq<seq<byte>>, name: seq<byte>)
    ensures Packed(labels + [name]) == Packed(labels) + (name + [0])
  {
    if labels == [] {
      assert [name][1..] == [];
    } else {
      assert (labels + [name])[1..] == labels[1..] + [name];
      PackedAppend(labels[1..], name);
      Regroup(labels[0] + [0], Packed(labels[1..]), name + [0]);
    }
  }

  lemma {:induction false} PackedSize(labels: seq<seq<byte>>)
    requires forall i :: 0 <= i < |labels| ==> IsLabel(labels[i])
    ensures |Packed(labels)| <= LABEL_SIZE * |labels|
  {
    if labels != [] {
      PackedSize(labels[1..]);
    }
  }

  /** Build the item of one flag.  The code stops before a label that might not fit
      its 4096 bytes; a table never gets there. */
  method PackGroups(groups: seq<Group>, hidden: bool) returns (buf: seq<byte>)
    requires IsTable(groups)
    ensures buf == Packed(Labels(groups, hidden)) && |buf| <= LABEL_SIZE * RG_MAX
  {
    buf := [];
    var i := 0;
    while i < RG_MAX
      invariant 0 <= i <= RG_MAX
      invariant buf == Packed(Labels(groups[..i], hidden)) && |buf| <= LABEL_SIZE * i
    {
      hide Labels, Packed;
      LabelsSnoc(groups, i, hidden);
      var name := groups[i].name;
      if name != [] && groups[i].hidden == hidden {
        if |buf| + |name| >= PACK_SIZE {
          break;
        }
        PackedAppend(Labels(groups[..i], hidden), name);
        buf := buf + (name + [0]);
      }
      i := i + 1;
    }
    assert groups[..i] == groups;
  }

  /** `strlen`, within the bytes of the item. */
  function Strlen(s: seq<byte>): (n: nat)
    ensures n <= |s| && (n < |s| ==> s[n] == 0) && forall i :: 0 <= i < n ==> s[i] != 0
  {
    if s == [] || s[0] == 0 then 0 else 1 + Strlen(s[1..])
  }

  function AfterString(s: seq<byte>): (r: seq<byte>)
    ensures s != [] ==> |r| < |s|
  {
    if Strlen(s) == |s| then [] else s[Strlen(s) + 1..]
  }

  /** Put the labels of an item into the free slots from slot `i` on. */
  ghost function Unpacked(groups: seq<Group>, i: nat, s: seq<byte>, hidden: bool): (r: seq<Group>)
    ensures |r| == |groups|
    decreases |s| + |groups| - i
  {
    if s == [] || i >= |groups| then groups
    else if groups[i].name != [] then Unpacked(groups, i + 1, s, hidden)
    else
      var name := s[..Strlen(s)];
      if |name| < LABEL_SIZE then
        Unpacked(groups[i := Group(name, hidden || groups[i].hidden)], i + 1, AfterString(s), hidden)
      else Unpacked(groups, i, AfterString(s), hidden)
  }

  method UnpackGroups(groups: seq<Group>, s: seq<byte>, hidden: bool) returns (r: seq<Group>)
    requires IsTable(groups)
    ensures r == Unpacked(groups, 0, s, hidden)
    ensures IsTable(r)
  {
    r := groups;
    var i, rest := 0, s;
    while rest != [] && i < RG_MAX
      invariant 0 <= i <= RG_MAX && IsTable(r)
      invariant Unpacked(r, i, rest, hidden) == Unpacked(groups, 0, s, hidden)
      decreases |rest| + RG_MAX - i
    {
      if r[i].name != [] {
        i := i + 1;
      } else {
        var n := Strlen(rest);
        if n < LABEL_SIZE {
          r := r[i := Group(rest[..n], hidden || r[i].hidden)];
          i := i + 1;
        }
        rest := AfterString(rest);
      }
    }
  }

  /** What is unpacked fits the table. */
  lemma {:induction false} UnpackedIsTable(groups: seq<Group>, i: nat, s: seq<byte>, hidden: bool)
    requires IsTable(groups)
    ensures IsTable(Unpacked(groups, i, s, hidden))
    decreases |s| + |groups| - i
  {
    if s != [] && i < |groups| {
      if groups[i].name != [] {
        UnpackedIsTable(groups, i + 1, s, hidden);
      } else {
        var name := s[..Strlen(s)];
        if |name| < LABEL_SIZE {
          UnpackedIsTable(groups[i := Group(name, hidden || groups[i].hidden)], i + 1, AfterString(s), hidden);
        } else {
          UnpackedIsTable(groups, i, AfterString(s), hidden);
        }
      }
    }
  }

  /** The slots for these labels. */
  ghost function Slots(labels: seq<seq<byte>>, hidden: bool): (r: seq<Group>)
    ensures |r| == |labels|
  {
    seq(|labels|, i requires 0 <= i < |labels| => Group(labels[i], hidden))
  }

  ghost function Blank(n: nat): seq<Group> {
    seq(n, _ => EMPTY_GROUP)
  }

  lemma StrlenOfString(name: seq<byte>, rest: seq<byte>)
    requires forall i :: 0 <= i < |name| ==> name[i] != 0
    ensures Strlen(name + [0] + rest) == |name|
    ensures AfterString(name + [0] + rest) == rest
  {
    var s := name + [0] + rest;
    assert s[|name|] == 0;
    assert forall i :: 0 <= i < |name| ==> s[i] == name[i];
    assert s[|name| + 1..] == rest;
  }

  lemma SkipOne(groups: seq<Group>, i: nat, s: seq<byte>, hidden: bool)
    requires i < |groups| && groups[i].name != []
    ensures s != [] ==> Unpacked(groups, i, s, hidden) == Unpacked(groups, i + 1, s, hidden)
  {
  }

  lemma UnpackOne(groups: seq<Group>, i: nat, name: seq<byte>, rest: seq<byte>, hidden: bool)
    requires i < |groups| && groups[i] == EMPTY_GROUP && IsLabel(name)
    ensures Unpacked(groups, i, name + [0] + rest, hidden)
            == Unpacked(groups[i := Group(name, hidden)], i + 1, rest, hidden)
  {
    hide Strlen, AfterString;
    StrlenOfString(name, rest);
    assert (name + [0] + rest)[..|name|] == name;
  }

  lemma PackedFirst(labels: seq<seq<byte>>)
    requires labels != []
    ensures Packed(labels) == labels[0] + [0] + Packed(labels[1..])
  {
  }

  lemma FreeSlot(taken: seq<Group>, blank: nat, g: Group)
    requires 0 < blank
    ensures var groups := taken + Blank(blank);
            && |groups| > |taken| && groups[|taken|] == EMPTY_GROUP
            && groups[|taken| := g] == taken + [g] + Blank(blank - 1)
  {
  }

  /** The first label goes into the first free slot. */
  lemma UnpackStep(taken: seq<Group>, labels: seq<seq<byte>>, blank: nat, hidden: bool)
    requires 0 < |labels| <= blank && IsLabel(labels[0])
    ensures Unpacked(taken + Blank(blank), |taken|, Packed(labels), hidden)
         == Unpacked(taken + [Group(labels[0], hidden)] + Blank(blank - 1), |taken| + 1, Packed(labels[1..]), hidden)
  {
    hide Unpacked, Packed, Blank, IsLabel;
    PackedFirst(labels);
    FreeSlot(taken, blank, Group(labels[0], hidden));
    UnpackOne(taken + Blank(blank), |taken|, labels[0], Packed(labels[1..]), hidden);
  }

  lemma SlotsCons(labels: seq<seq<byte>>, hidden: bool)
    requires labels != []
    ensures Slots(labels, hidden) == [Group(labels[0], hidden)] + Slots(labels[1..], hidden)
  {
  }

  /** Taken slots are passed over. */
  lemma {:induction false} SkipTaken(taken: seq<Group>, i: nat, blank: nat, s: seq<byte>, hidden: bool)
    requires i <= |taken| && s != []
    requires forall k :: 0 <= k < |taken| ==> taken[k].name != []
    ensures Unpacked(taken + Blank(blank), i, s, hidden) == Unpacked(taken + Blank(blank), |taken|, s, hidden)
    decreases |taken| - i
  {
    hide Unpacked, Blank;
    if i < |taken| {
      assert (taken + Blank(blank))[i] == taken[i];
      SkipOne(taken + Blank(blank), i, s, hidden);
      SkipTaken(taken, i + 1, blank, s, hidden);
    }
  }

  lemma NothingUnpacked(groups: seq<Group>, i: nat, hidden: bool)
    ensures Unpacked(groups, i, Packed([]), hidden) == groups
  {
  }

  /** Loading a list of labels from the first free slot on gives them the next slots. */
  lemma {:induction false} UnpackFills(taken: seq<Group>, labels: seq<seq<byte>>, blank: nat, hidden: bool)
    requires |labels| <= blank
    requires forall k :: 0 <= k < |labels| ==> IsLabel(labels[k]) && labels[k] != []
    ensures Unpacked(taken + Blank(blank), |taken|, Packed(labels), hidden)
         == taken + Slots(labels, hidden) + Blank(blank - |labels|)
    decreases |labels|
  {
    hide Unpacked, Packed, Slots, Blank;
    if labels == [] {
      NothingUnpacked(taken + Blank(blank), |taken|, hidden);
      assert taken + Slots(labels, hidden) == taken;
    } else {
      var slot, rest := [Group(labels[0], hidden)], labels[1..];
      UnpackStep(taken, labels, blank, hidden);
      UnpackFills(taken + slot, rest, blank - 1, hidden);
      assert |taken + slot| == |taken| + 1 && blank - 1 - |rest| == blank - |labels|;
      SlotsCons(labels, hidden);
      Regroup(taken, slot, Slots(rest, hidden));
    }
  }

  lemma {:induction false} LabelCount(groups: seq<Group>)
    ensures |Labels(groups, true)| + |Labels(groups, false)| <= |groups|
  {
    if groups != [] {
      LabelCount(groups[..|groups| - 1]);
    }
  }

  /** The table after both items were loaded into an empty one: the hidden labels in
      slot order, then the shown ones. */
  ghost function Compacted(groups: seq<Group>): seq<Group>
    requires IsTable(groups)
  {
    LabelCount(groups);
    var h, s := Labels(groups, true), Labels(groups, false);
    Slots(h, true) + Slots(s, false) + Blank(RG_MAX - |h| - |s|)
  }

  lemma LabelsFit(groups: seq<Group>)
    requires IsTable(groups)
    ensures var h, s := Labels(groups, true), Labels(groups, false);
            && |h| + |s| <= RG_MAX
            && (forall i :: 0 <= i < |h| ==> IsLabel(h[i]) && h[i] != [])
            && (forall i :: 0 <= i < |s| ==> IsLabel(s[i]) && s[i] != [])
  {
    LabelCount(groups);
  }

  /** Hide item, then show item, into an empty table. */
  lemma GroupsRoundTrip(groups: seq<Group>)
    requires IsTable(groups)
    ensures var h, s := Labels(groups, true), Labels(groups, false);
            var first := Unpacked(Blank(RG_MAX), 0, Packed(h), true);
            && |h| <= RG_MAX
            && first == Slots(h, true) + Blank(RG_MAX - |h|)
            && Unpacked(first, 0, Packed(s), false) == Compacted(groups)
  {
    LabelsFit(groups);
    var h, s := Labels(groups, true), Labels(groups, false);
    UnpackIntoEmpty(h, true);
    if s != [] {
      SkipTaken(Slots(h, true), 0, RG_MAX - |h|, Packed(s), false);
    } else {
      assert Slots(h, true) + Slots(s, false) == Slots(h, true);
    }
    UnpackFills(Slots(h, true), s, RG_MAX - |h|, false);
  }

  lemma UnpackIntoEmpty(labels: seq<seq<byte>>, hidden: bool)
    requires |labels| <= RG_MAX
    requires forall k :: 0 <= k < |labels| ==> IsLabel(labels[k]) && labels[k] != []
    ensures Unpacked(Blank(RG_MAX), 0, Packed(labels), hidden) == Slots(labels, hidden) + Blank(RG_MAX - |labels|)
  {
    var none: seq<Group> := [];
    assert none + Blank(RG_MAX) == Blank(RG_MAX);
    assert none + Slots(labels, hidden) == Slots(labels, hidden);
    UnpackFills(none, labels, RG_MAX, hidden);
  }

  /** The labels and flags survive, in order. */
  lemma CompactedKeepsLabels(groups: seq<Group>, hidden: bool)
    requires IsTable(groups)
    ensures Labels(Compacted(groups), hidden) == Labels(groups, hidden)
  {
    LabelsFit(groups);
    var h, s := Labels(groups, true), Labels(groups, false);
    var n := RG_MAX - |h| - |s|;
    var a, b := Slots(h, true), Slots(s, false);
    LabelsConcat(a + b, Blank(n), hidden);
    LabelsOfBlank(n, hidden);
    assert Labels(a + b, hidden) == Labels(groups, hidden) by {
      LabelsConcat(a, b, hidden);
      LabelsOfSlots(h, true, hidden);
      LabelsOfSlots(s, false, hidden);
    }
  }

  lemma {:induction false} LabelsConcat(a: seq<Group>, b: seq<Group>, hidden: bool)
    ensures Labels(a + b, hidden) == Labels(a, hidden) + Labels(b, hidden)
  {
    hide Labels, LabelOf;
    NoLabels(hidden);
    if b == [] {
      assert a + b == a;
    } else {
      var b', last := b[..|b| - 1], b[|b| - 1];
      assert b == b' + [last] && a + b == (a + b') + [last];
      LabelsConcat(a, b', hidden);
      LabelsAppend(a + b', last, hidden);
      LabelsAppend(b', last, hidden);
      Regroup(Labels(a, hidden), Labels(b', hidden), LabelOf(last, hidden));
    }
  }

  lemma {:induction false} LabelsOfSlots(labels: seq<seq<byte>>, flag: bool, hidden: bool)
    requires forall i :: 0 <= i < |labels| ==> labels[i] != []
    ensures Labels(Slots(labels, flag), hidden) == if flag == hidden then labels else []
  {
    hide Labels;
    NoLabels(hidden);
    if labels == [] {
      assert Slots(labels, flag) == [];
    } else {
      var front, last := labels[..|labels| - 1], labels[|labels| - 1];
      assert Slots(labels, flag) == Slots(front, flag) + [Group(last, flag)];
      LabelsOfSlots(front, flag, hidden);
      LabelsAppend(Slots(front, flag), Group(last, flag), hidden);
      assert labels == front + [last];
    }
  }

  lemma {:induction false} LabelsOfBlank(n: nat, hidden: bool)
    ensures Labels(Blank(n), hidden) == []
  {
    if n > 0 {
      assert Blank(n)[..n - 1] == Blank(n - 1);
      LabelsOfBlank(n - 1, hidden);
    }
  }
}
