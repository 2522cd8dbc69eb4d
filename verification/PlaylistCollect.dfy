/** `recurse_find_audio`: collect the audio files below a directory, subdirectories
    first and each directory sorted, up to the size of a playlist. */
module PlaylistCollect {
  import opened Bytes
  import opened PlaylistOrder
  import opened StableOrder

  const MAX_PLAYLIST_ENTRIES: nat := 2048

  /** What `readdir` delivers for a directory that can be opened. */
  datatype Tree = Dir(entries: seq<Entry>) | Unreadable
  datatype Entry = Entry(name: string, node: Node)

  /** What `stat` says of an entry. */
  datatype Node = NoStat | Sub(tree: Tree) | File

  function Lower(c: char): char {
    if 'A' <= c <= 'Z' then ((c as int) + 32) as char else c
  }

  /** `name` ends with `ext`, ignoring case. */
  predicate EndsWith(name: string, ext: string) {
    |ext| <= |name| && forall i :: 0 <= i < |ext| ==> Lower(name[|name| - |ext| + i]) == Lower(ext[i])
  }

  predicate IsAudio(name: string) {
    || EndsWith(name, ".mp3") || EndsWith(name, ".ogg") || EndsWith(name, ".wav")
    || EndsWith(name, ".ac3") || EndsWith(name, ".flac") || EndsWith(name, ".fla")
  }

  ghost function LowerAll(s: string): string {
    seq(|s|, i requires 0 <= i < |s| => Lower(s[i]))
  }

  /** The names that end with one of the six extensions, in any case, and no others. */
  lemma AudioNames(name: string)
    ensures IsAudio(name) <==> exists n: nat :: n <= |name| && IsAudioEnding(LowerAll(name[n..]))
  {
    hide EndsWith, LowerAll;
    forall n: nat | n <= |name| ensures IsAudioEnding(LowerAll(name[n..])) ==> IsAudio(name) {
      LowerAlready();
      EndsWithLower(name, ".mp3", n);
      EndsWithLower(name, ".ogg", n);
      EndsWithLower(name, ".wav", n);
      EndsWithLower(name, ".ac3", n);
      EndsWithLower(name, ".flac", n);
      EndsWithLower(name, ".fla", n);
    }
    if IsAudio(name) {
      var ext :| IsAudioEnding(ext) && EndsWith(name, ext);
      EndsShorter(name, ext);
      LowerAlready();
      EndsWithLower(name, ext, |name| - |ext|);
    }
  }

  ghost predicate IsAudioEnding(ext: string) {
    ext == ".mp3" || ext == ".ogg" || ext == ".wav" || ext == ".ac3" || ext == ".flac" || ext == ".fla"
  }

  lemma LowerAlready()
    ensures forall ext :: IsAudioEnding(ext) ==> LowerAll(ext) == ext
  {
  }

  lemma EndsShorter(name: string, ext: string)
    requires EndsWith(name, ext)
    ensures |ext| <= |name|
  {
  }

  lemma EndsWithLower(name: string, ext: string, n: nat)
    requires n <= |name| && LowerAll(ext) == ext
    ensures LowerAll(name[n..]) == ext <==> n == |name| - |ext| && EndsWith(name, ext)
  {
    var s := name[n..];
    assert forall i :: 0 <= i < |ext| ==> Lower(ext[i]) == LowerAll(ext)[i];
    if |s| == |ext| {
      assert forall i :: 0 <= i < |s| ==> s[i] == name[|name| - |ext| + i] && LowerAll(s)[i] == Lower(s[i]);
    }
  }

  /** Lower case letters are the upper case ones and themselves. */
  lemma LowerLetters(c: char, d: char)
    ensures Lower(c) == d <==> (if 'A' <= c <= 'Z' then d as int == c as int + 32 else c == d)
  {
  }

  /** Entries that are passed over without a look. */
  predicate Ignored(name: string) {
    name == "" || name[0] == '.' || name[0] == '/'
  }

  function Path(dir: string, name: string): string { dir + "/" + name }

  // ----- what is collected -----

  /** The rest of a directory, with `own` already found in it: the files below its
      subdirectories, its own files, and whether it was read to the end. */
  datatype Walked = Walked(below: seq<string>, own: seq<string>, complete: bool)

  ghost function Walk(dir: string, entries: seq<Entry>, own: seq<string>): Walked
    decreases entries
  {
    if entries == [] || |own| >= MAX_PLAYLIST_ENTRIES then Walked([], own, true)
    else if CannotStat(entries[0]) then Walked([], own, false)
    else
      var w := Walk(dir, entries[1..], own + OwnFile(dir, entries[0]));
      w.(below := Below(dir, entries[0]) + w.below)
  }

  predicate CannotStat(e: Entry) {
    !Ignored(e.name) && e.node.NoStat?
  }

  /** The entry itself, when it is an audio file. */
  ghost function OwnFile(dir: string, e: Entry): (r: seq<string>)
    ensures |r| <= 1
  {
    if !Ignored(e.name) && e.node.File? && IsAudio(e.name) then [Path(dir, e.name)] else []
  }

  /** The files below the entry, when it is a directory. */
  ghost function Below(dir: string, e: Entry): seq<string>
    decreases e
  {
    if !Ignored(e.name) && e.node.Sub? then Collect(Path(dir, e.name), e.node.tree) else []
  }

  /** The files of a tree as the code adds them; one that cannot be looked at makes
      its directory's own files disappear. */
  ghost function Collect(dir: string, tree: Tree): seq<string>
    decreases tree
  {
    match tree
    case Unreadable => []
    case Dir(entries) =>
      var w := Walk(dir, entries, []);
      w.below + if w.complete then Order(w.own) else []
  }

  /** The first entries that a playlist has room for. */
  ghost function Capped(s: seq<string>): seq<string> {
    if |s| <= MAX_PLAYLIST_ENTRIES then s else s[..MAX_PLAYLIST_ENTRIES]
  }

  lemma CappedTwice(a: seq<string>, b: seq<string>)
    ensures Capped(Capped(a) + b) == Capped(a + b)
  {
  }

  // ----- trees of ordinary size -----

  ghost function OwnFiles(dir: string, entries: seq<Entry>): seq<string> {
    if entries == [] then [] else OwnFile(dir, entries[0]) + OwnFiles(dir, entries[1..])
  }

  ghost function BelowAll(dir: string, entries: seq<Entry>): seq<string>
    decreases entries, 1
  {
    if entries == [] then []
    else BelowEntry(dir, entries[0]) + BelowAll(dir, entries[1..])
  }

  ghost function BelowEntry(dir: string, e: Entry): seq<string>
    decreases e
  {
    if !Ignored(e.name) && e.node.Sub? then PostOrder(Path(dir, e.name), e.node.tree) else []
  }

  /** The files of a tree in post-order: subdirectories as they are read, then the
      directory's own audio files in order. */
  ghost function PostOrder(dir: string, tree: Tree): seq<string>
    decreases tree, 0
  {
    match tree
    case Unreadable => []
    case Dir(entries) => BelowAll(dir, entries) + Order(OwnFiles(dir, entries))
  }

  // ----- which files those are -----

  /** The path leads to an audio file, through entries whose names start with neither a dot
      nor a slash. */
  ghost predicate Leads(dir: string, tree: Tree, path: string)
    decreases tree, 0
  {
    tree.Dir? && LeadsFrom(dir, tree.entries, path)
  }

  ghost predicate LeadsFrom(dir: string, entries: seq<Entry>, path: string)
    decreases entries, 1
  {
    entries != [] && (LeadsBy(dir, entries[0], path) || LeadsFrom(dir, entries[1..], path))
  }

  ghost predicate LeadsBy(dir: string, e: Entry, path: string)
    decreases e, 0
  {
    && |e.name| > 0 && e.name[0] != '.' && e.name[0] != '/'
    && match e.node
       case NoStat => false
       case Sub(tree) => Leads(dir + "/" + e.name, tree, path)
       case File =>
         path == dir + "/" + e.name
         && exists n: nat :: n <= |e.name| && IsAudioEnding(LowerAll(e.name[n..]))
  }

  /** The post-order holds exactly the audio files of the tree. */
  lemma {:induction false} PostOrderHolds(dir: string, tree: Tree, path: string)
    ensures path in PostOrder(dir, tree) <==> Leads(dir, tree, path)
    decreases tree, 0
  {
    if tree.Dir? {
      EntriesHold(dir, tree.entries, path);
      StableSortMembers(OutOfOrder, OwnFiles(dir, tree.entries), path);
    }
  }

  lemma {:induction false} EntriesHold(dir: string, entries: seq<Entry>, path: string)
    ensures path in BelowAll(dir, entries) || path in OwnFiles(dir, entries) <==> LeadsFrom(dir, entries, path)
    decreases entries, 1
  {
    hide BelowEntry, OwnFile, LeadsBy;
    if entries != [] {
      EntryHolds(dir, entries[0], path);
      EntriesHold(dir, entries[1..], path);
    }
  }

  lemma {:induction false} EntryHolds(dir: string, e: Entry, path: string)
    ensures path in BelowEntry(dir, e) || path in OwnFile(dir, e) <==> LeadsBy(dir, e, path)
    decreases e, 0
  {
    hide IsAudio, PostOrder, Leads, LowerAll;
    AudioNames(e.name);
    if e.node.Sub? {
      PostOrderHolds(Path(dir, e.name), e.node.tree, path);
    }
  }

  /** Every entry can be looked at and no directory has a playlist of its own files. */
  ghost predicate OfOrdinarySize(tree: Tree)
    decreases tree, 0
  {
    tree.Dir? ==> EntriesOrdinary(tree.entries) && OwnCount(tree.entries) < MAX_PLAYLIST_ENTRIES
  }

  ghost predicate EntriesOrdinary(entries: seq<Entry>)
    decreases entries, 1
  {
    entries == []
    || (!CannotStat(entries[0])
        && (entries[0].node.Sub? ==> OfOrdinarySize(entries[0].node.tree))
        && EntriesOrdinary(entries[1..]))
  }

  ghost function OwnCount(entries: seq<Entry>): nat {
    if entries == [] then 0
    else (if !Ignored(entries[0].name) && entries[0].node.File? && IsAudio(entries[0].name) then 1 else 0)
         + OwnCount(entries[1..])
  }

  /** On such a tree the code collects its post-order. */
  lemma {:induction false} CollectIsPostOrder(dir: string, tree: Tree)
    requires OfOrdinarySize(tree)
    ensures Collect(dir, tree) == PostOrder(dir, tree)
    decreases tree, 0
  {
    if tree.Dir? {
      WalkIsPostOrder(dir, tree.entries, []);
      assert [] + OwnFiles(dir, tree.entries) == OwnFiles(dir, tree.entries);
    }
  }

  lemma {:induction false} WalkIsPostOrder(dir: string, entries: seq<Entry>, own: seq<string>)
    requires EntriesOrdinary(entries) && |own| + OwnCount(entries) < MAX_PLAYLIST_ENTRIES
    ensures Walk(dir, entries, own) == Walked(BelowAll(dir, entries), own + OwnFiles(dir, entries), true)
    decreases entries, 1
  {
    if entries == [] {
      assert own + [] == own;
    } else {
      var e := entries[0];
      if !Ignored(e.name) && e.node.Sub? {
        CollectIsPostOrder(Path(dir, e.name), e.node.tree);
      }
      Regroup(own, OwnFile(dir, e), OwnFiles(dir, entries[1..]));
      WalkIsPostOrder(dir, entries[1..], own + OwnFile(dir, e));
    }
  }

  // ----- exactly when nothing is lost -----

  /** No file of the tree is lost. */
  ghost predicate AllKept(dir: string, tree: Tree)
    decreases tree, 0
  {
    tree.Dir? ==> RestKept(dir, tree.entries, 0)
  }

  /** No file of the rest of a directory is lost, with `k` own files found before it: what
      comes after the cap has no files in it, and an entry that cannot be looked at has
      no own file before it and no file after it. */
  ghost predicate RestKept(dir: string, entries: seq<Entry>, k: nat)
    decreases entries, 1
  {
    if entries == [] then true
    else if k >= MAX_PLAYLIST_ENTRIES || CannotStat(entries[0]) then
      NoFiles(dir, entries) && (k >= MAX_PLAYLIST_ENTRIES || k == 0)
    else
      && SubKept(dir, entries[0])
      && RestKept(dir, entries[1..], k + |OwnFile(dir, entries[0])|)
  }

  ghost predicate SubKept(dir: string, e: Entry)
    decreases e, 0
  {
    !Ignored(e.name) && e.node.Sub? ==> AllKept(Path(dir, e.name), e.node.tree)
  }

  ghost predicate NoFiles(dir: string, entries: seq<Entry>) {
    OwnFiles(dir, entries) == [] && BelowAll(dir, entries) == []
  }

  /** The own files that a directory adds. */
  ghost function Added(w: Walked): seq<string> {
    if w.complete then w.own else []
  }

  lemma {:induction false} CollectKeeps(dir: string, tree: Tree)
    ensures |Collect(dir, tree)| <= |PostOrder(dir, tree)|
    ensures |Collect(dir, tree)| == |PostOrder(dir, tree)| <==> AllKept(dir, tree)
    ensures AllKept(dir, tree) ==> Collect(dir, tree) == PostOrder(dir, tree)
    decreases tree, 0
  {
    hide Walk, BelowAll, OwnFiles, RestKept, Order;
    if tree.Dir? {
      var w := Walk(dir, tree.entries, []);
      WalkKeeps(dir, tree.entries, []);
      OrderSize(Added(w));
      OrderSize(OwnFiles(dir, tree.entries));
      OrderSize([]);
      assert [] + OwnFiles(dir, tree.entries) == OwnFiles(dir, tree.entries);
    }
  }

  lemma OrderSize(own: seq<string>)
    ensures |Order(own)| == |own|
  {
    StableSortSize(OutOfOrder, own);
  }

  lemma {:induction false} WalkKeeps(dir: string, entries: seq<Entry>, own: seq<string>)
    requires |own| <= MAX_PLAYLIST_ENTRIES
    ensures var w, below, all := Walk(dir, entries, own), BelowAll(dir, entries), own + OwnFiles(dir, entries);
            && |w.below| <= |below| && |Added(w)| <= |all|
            && (|w.below| == |below| && |Added(w)| == |all| <==> RestKept(dir, entries, |own|))
            && (RestKept(dir, entries, |own|) ==> w.below == below && Added(w) == all)
    decreases entries, 1
  {
    hide Below, BelowEntry, SubKept, OwnFile, CannotStat;
    if entries == [] {
      assert own + [] == own;
    } else if |own| >= MAX_PLAYLIST_ENTRIES || CannotStat(entries[0]) {
      assert own + [] == own;
    } else {
      var e, rest := entries[0], entries[1..];
      EntryKeeps(dir, e);
      var own' := own + OwnFile(dir, e);
      WalkKeeps(dir, rest, own');
      Regroup(own, OwnFile(dir, e), OwnFiles(dir, rest));
    }
  }

  lemma {:induction false} EntryKeeps(dir: string, e: Entry)
    ensures |Below(dir, e)| <= |BelowEntry(dir, e)|
    ensures |Below(dir, e)| == |BelowEntry(dir, e)| <==> SubKept(dir, e)
    ensures SubKept(dir, e) ==> Below(dir, e) == BelowEntry(dir, e)
    decreases e, 0
  {
    if !Ignored(e.name) && e.node.Sub? {
      CollectKeeps(Path(dir, e.name), e.node.tree);
    }
  }

  /** The code collects the post-order of a tree if and only if no directory loses a
      file at its cap or at an entry that cannot be looked at. */
  lemma CollectExact(dir: string, tree: Tree)
    ensures Collect(dir, tree) == PostOrder(dir, tree) <==> AllKept(dir, tree)
  {
    CollectKeeps(dir, tree);
  }

  ghost function Further(below: seq<string>, w: Walked): Walked {
    w.(below := below + w.below)
  }

  lemma WalkStep(dir: string, entries: seq<Entry>, i: nat, own: seq<string>, below: seq<string>)
    requires i < |entries| && |own| < MAX_PLAYLIST_ENTRIES
    ensures var e, w := entries[i], Walk(dir, entries[i..], own);
            if CannotStat(e) then Further(below, w) == Walked(below, own, false)
            else Further(below, w)
                 == Further(below + Below(dir, e), Walk(dir, entries[i + 1..], own + OwnFile(dir, e)))
  {
    var e := entries[i];
    assert entries[i..][0] == e && entries[i..][1..] == entries[i + 1..];
    if CannotStat(e) {
      assert below + [] == below;
    } else {
      Regroup(below, Below(dir, e), Walk(dir, entries[i + 1..], own + OwnFile(dir, e)).below);
    }
  }

  lemma RoomFor(s: seq<string>)
    ensures |s| <= MAX_PLAYLIST_ENTRIES ==> Capped(s) == s
  {
  }

  lemma WalkDone(dir: string, entries: seq<Entry>, i: nat, own: seq<string>)
    requires i <= |entries|
    ensures i == |entries| || |own| >= MAX_PLAYLIST_ENTRIES ==>
              Walk(dir, entries[i..], own) == Walked([], own, true)
  {
  }

  /** What a directory adds: the files below it, then its own. */
  lemma CappedInTwo(before: seq<string>, below: seq<string>, own: seq<string>)
    ensures Capped(Capped(before + below) + own) == Capped(before + (below + own))
  {
    CappedTwice(before + below, own);
    Regroup(before, below, own);
  }

  // ----- the code -----

  class Playlist {
    const item: array<string>
    var nextitem: nat

    ghost predicate Valid()
      reads this
    {
      item.Length == MAX_PLAYLIST_ENTRIES && nextitem <= MAX_PLAYLIST_ENTRIES
    }

    ghost function Items(): seq<string>
      requires Valid()
      reads this, item
    {
      item[..nextitem]
    }

    constructor ()
      ensures Valid() && Items() == [] && fresh(item)
    {
      item := new string[MAX_PLAYLIST_ENTRIES](_ => "");
      nextitem := 0;
    }

    /** `recurse_find_audio`. */
    method RecurseFindAudio(dir: string, tree: Tree)
      requires Valid()
      modifies this, item
      ensures Valid() && Items() == Capped(old(Items()) + Collect(dir, tree))
      decreases tree, 2
    {
      if tree.Unreadable? {
        assert Items() + [] == Items();
        return;
      }
      ghost var before, w := Items(), Walk(dir, tree.entries, []);
      var contents := new string[MAX_PLAYLIST_ENTRIES](_ => "");
      var noitems, complete := ReadEntries(dir, tree, contents);
      if complete {
        SortContents(contents, noitems);
        Append(contents, noitems);
        CappedInTwo(before, w.below, Order(w.own));
      } else {
        assert w.below + [] == w.below;
      }
    }

    /** The loop over the directory. */
    method ReadEntries(dir: string, tree: Tree, contents: array<string>) returns (noitems: nat, complete: bool)
      requires Valid() && tree.Dir? && contents != item && contents.Length == MAX_PLAYLIST_ENTRIES
      modifies this, item, contents
      ensures Valid() && noitems <= MAX_PLAYLIST_ENTRIES
      ensures var w := Walk(dir, tree.entries, []);
              && complete == w.complete && contents[..noitems] == w.own
              && Items() == Capped(old(Items()) + w.below)
      decreases tree, 1
    {
      hide Walk, Below, Capped, IsAudio;
      RoomFor(Items());
      var entries := tree.entries;
      ghost var before, below: seq<string> := Items(), [];
      ghost var all := Walk(dir, entries, []);
      noitems, complete := 0, true;
      var i := 0;
      assert before + below == before && entries[0..] == entries;
      while i < |entries| && noitems < MAX_PLAYLIST_ENTRIES && complete
        invariant 0 <= i <= |entries| && Valid() && noitems <= MAX_PLAYLIST_ENTRIES
        invariant Items() == Capped(before + below)
        invariant if complete then all == Further(below, Walk(dir, entries[i..], contents[..noitems]))
                  else all == Walked(below, contents[..noitems], false)
        decreases |entries| - i, complete
      {
        ghost var own, e := contents[..noitems], entries[i];
        WalkStep(dir, entries, i, own, below);
        var ok;
        noitems, ok := Visit(dir, tree, i, contents, noitems);
        if ok {
          CappedInTwo(before, below, Below(dir, e));
          below := below + Below(dir, e);
          i := i + 1;
        } else {
          complete := false;
        }
      }
      WalkDone(dir, entries, i, contents[..noitems]);
      assert below + [] == below;
    }

    /** One entry of a directory with room for another file. */
    method Visit(dir: string, tree: Tree, i: nat, contents: array<string>, noitems: nat)
      returns (noitems': nat, ok: bool)
      requires Valid() && tree.Dir? && i < |tree.entries|
      requires contents != item && contents.Length == MAX_PLAYLIST_ENTRIES && noitems < MAX_PLAYLIST_ENTRIES
      modifies this, item, contents
      ensures Valid() && noitems' <= MAX_PLAYLIST_ENTRIES
      ensures ok <==> !CannotStat(tree.entries[i])
      ensures contents[..noitems'] == old(contents[..noitems]) + OwnFile(dir, tree.entries[i])
      ensures Items() == if ok then Capped(old(Items()) + Below(dir, tree.entries[i])) else old(Items())
      decreases tree, 0
    {
      var e := tree.entries[i];
      ghost var own, before := contents[..noitems], Items();
      noitems', ok := noitems, true;
      assert own + [] == own && before + [] == before;
      if !Ignored(e.name) {
        match e.node {
          case NoStat => ok := false;
          case Sub(sub) => RecurseFindAudio(Path(dir, e.name), sub);
          case File =>
            if IsAudio(e.name) {
              contents[noitems] := Path(dir, e.name);
              noitems' := noitems + 1;
            }
        }
      }
    }

    /** Append a directory's files until the playlist is full. */
    method Append(contents: array<string>, noitems: nat)
      requires Valid() && contents != item && noitems <= contents.Length
      modifies this, item
      ensures Valid() && Items() == Capped(old(Items()) + contents[..noitems])
    {
      var i := 0;
      while i < noitems
        invariant 0 <= i <= noitems && Valid()
        invariant Items() == Capped(old(Items()) + contents[..i])
        invariant contents[..noitems] == old(contents[..noitems])
      {
        assert contents[..i + 1] == contents[..i] + [contents[i]];
        if nextitem != MAX_PLAYLIST_ENTRIES {
          item[nextitem] := contents[i];
          nextitem := nextitem + 1;
        }
        i := i + 1;
      }
    }
  }
}
