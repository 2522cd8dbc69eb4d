/** The order of a play-all list: file names compared by `strcmp`, where a name that
    starts with a single digit counts as if it had a leading zero; and the bubble
    sort that puts a directory's files into it. */
module PlaylistOrder {
  import opened StableOrder

  /** `strcmp(a, b) > 0`. */
  predicate Greater(a: string, b: string) {
    if a == [] then false
    else if b == [] then true
    else if a[0] != b[0] then a[0] > b[0]
    else Greater(a[1..], b[1..])
  }

  lemma {:induction false} GreaterIsTotal(a: string, b: string)
    ensures !(Greater(a, b) && Greater(b, a))
    ensures !Greater(a, b) && !Greater(b, a) <==> a == b
  {
    if a != [] && b != [] && a[0] == b[0] {
      GreaterIsTotal(a[1..], b[1..]);
      assert a == [a[0]] + a[1..] && b == [b[0]] + b[1..];
    }
  }

  lemma {:induction false} GreaterIsTransitive(a: string, b: string, c: string)
    ensures !Greater(a, b) && !Greater(b, c) ==> !Greater(a, c)
  {
    if a != [] && b != [] && c != [] && a[0] == b[0] == c[0] {
      GreaterIsTransitive(a[1..], b[1..], c[1..]);
    }
  }

  /** The texts agree up to `n`, and there `a` has the greater character or goes on alone. */
  ghost predicate GreaterAt(a: string, b: string, n: nat) {
    n < |a| && n <= |b| && a[..n] == b[..n] && (n == |b| || a[n] > b[n])
  }

  /** One text is greater than another exactly at their first difference. */
  lemma {:induction false} GreaterExactly(a: string, b: string)
    ensures Greater(a, b) <==> exists n: nat :: GreaterAt(a, b, n)
  {
    if a != [] && (b == [] || a[0] > b[0]) {
      assert GreaterAt(a, b, 0);
    } else if a != [] && a[0] == b[0] {
      GreaterExactly(a[1..], b[1..]);
      if Greater(a, b) {
        var n: nat :| GreaterAt(a[1..], b[1..], n);
        assert a[..n + 1] == [a[0]] + a[1..][..n] && b[..n + 1] == [b[0]] + b[1..][..n];
        assert GreaterAt(a, b, n + 1);
      }
      forall n: nat | GreaterAt(a, b, n) ensures n > 0 && GreaterAt(a[1..], b[1..], n - 1) {
        assert a[1..][..n - 1] == a[..n][1..] && b[1..][..n - 1] == b[..n][1..];
      }
    }
  }

  predicate IsDigit(c: char) { '0' <= c <= '9' }

  /** What follows the last slash. */
  function BaseName(path: string): string {
    if path == [] then []
    else if path[|path| - 1] == '/' then []
    else BaseName(path[..|path| - 1]) + [path[|path| - 1]]
  }

  /** The text a path is compared by. */
  function Key(path: string): string {
    var name := BaseName(path);
    if name != [] && IsDigit(name[0]) && (|name| == 1 || !IsDigit(name[1])) then "0" + name else name
  }

  predicate OutOfOrder(a: string, b: string) {
    Greater(Key(a), Key(b))
  }

  // ----- what the order means for track numbers -----

  ghost predicate NoSlash(name: string) {
    forall i :: 0 <= i < |name| ==> name[i] != '/'
  }

  /** The name starts with the number `n`, written with one digit or with two. */
  ghost predicate StartsTrack(name: string, n: nat) {
    || (n < 10 && |name| >= 1 && name[0] as int == '0' as int + n && (|name| == 1 || !IsDigit(name[1])))
    || (n < 100 && |name| >= 2 && name[0] as int == '0' as int + n / 10 && name[1] as int == '0' as int + n % 10)
  }

  ghost predicate HasTrack(path: string, n: nat) {
    exists dir, name :: path == dir + "/" + name && NoSlash(name) && StartsTrack(name, n)
  }

  /** However a track number is written, the key starts with its two digits. */
  lemma KeyOfTrack(path: string, n: nat)
    requires HasTrack(path, n)
    ensures var k := Key(path);
            |k| >= 2 && k[0] as int == '0' as int + n / 10 && k[1] as int == '0' as int + n % 10
  {
    var dir, name :| path == dir + "/" + name && NoSlash(name) && StartsTrack(name, n);
    BaseNameOfPath(dir, name);
  }

  /** Tracks come in the order of their numbers: 2 before 10, whatever the directories and
      the rest of the names. */
  lemma TracksInOrder(a: string, b: string, n: nat, m: nat)
    requires HasTrack(a, n) && HasTrack(b, m) && n < m
    ensures OutOfOrder(b, a) && !OutOfOrder(a, b)
  {
    KeyOfTrack(a, n);
    KeyOfTrack(b, m);
    var x, y := Key(b), Key(a);
    var i := if x[0] == y[0] then 1 else 0;
    assert GreaterAt(x, y, i);
    GreaterExactly(x, y);
    GreaterIsTotal(x, y);
  }

  /** The name starts with a digit that stands alone. */
  ghost predicate StartsSingle(name: string) {
    |name| >= 1 && IsDigit(name[0]) && (|name| >= 2 ==> !IsDigit(name[1]))
  }

  /** The first difference of two names decides, when both start with a single digit or
      neither does; else the one that does is read with a zero before it. */
  lemma NamesInOrder(dir: string, a: string, dir': string, b: string)
    requires NoSlash(a) && NoSlash(b)
    ensures var out := OutOfOrder(dir + "/" + a, dir' + "/" + b);
            && (StartsSingle(a) == StartsSingle(b) ==> (out <==> exists n: nat :: GreaterAt(a, b, n)))
            && (StartsSingle(a) && !StartsSingle(b) ==> (out <==> exists n: nat :: GreaterAt(['0'] + a, b, n)))
            && (!StartsSingle(a) && StartsSingle(b) ==> (out <==> exists n: nat :: GreaterAt(a, ['0'] + b, n)))
  {
    BaseNameOfPath(dir, a);
    BaseNameOfPath(dir', b);
    GreaterExactly(a, b);
    GreaterExactly(['0'] + a, b);
    GreaterExactly(a, ['0'] + b);
    assert (['0'] + a)[1..] == a && (['0'] + b)[1..] == b;
  }

  /** In a sorted list the track numbers ascend. */
  lemma TracksAscend(s: seq<string>, i: nat, j: nat, n: nat, m: nat)
    requires SortedBy(OutOfOrder, s) && i < j < |s| && HasTrack(s[i], n) && HasTrack(s[j], m)
    ensures n <= m
  {
    if m < n {
      TracksInOrder(s[j], s[i], m, n);
    }
  }

  lemma OutOfOrderCompares()
    ensures Compares(Key, OutOfOrder)
  {
    forall a, b
      ensures OutOfOrder(a, b) ==> !OutOfOrder(b, a) && Key(a) != Key(b)
      ensures !OutOfOrder(a, b) && !OutOfOrder(b, a) ==> Key(a) == Key(b)
    {
      GreaterIsTotal(Key(a), Key(b));
    }
    forall a, b, c | !OutOfOrder(a, b) && !OutOfOrder(b, c) ensures !OutOfOrder(a, c) {
      GreaterIsTransitive(Key(a), Key(b), Key(c));
    }
  }

  /** A file name and a path to it: the key looks at the name alone. */
  lemma {:induction false} BaseNameOfPath(dir: string, name: string)
    requires forall i :: 0 <= i < |name| ==> name[i] != '/'
    ensures BaseName(dir + "/" + name) == name
    decreases |name|
  {
    var path := dir + "/" + name;
    if name != "" {
      var n := |name| - 1;
      assert path[..|path| - 1] == dir + "/" + name[..n];
      BaseNameOfPath(dir, name[..n]);
      assert name == name[..n] + [name[n]];
    }
  }

  ghost function Order(s: seq<string>): seq<string> {
    StableSort(OutOfOrder, s)
  }

  /** The sort of `recurse_find_audio`, in place on the first `n` entries.  Every pass
      that swaps lowers the number of inversions. */
  method SortContents(a: array<string>, n: nat)
    requires n <= a.Length
    modifies a
    ensures SortedBy(OutOfOrder, a[..n]) && SameByKey(Key, a[..n], old(a[..n]))
    ensures multiset(a[..n]) == multiset(old(a[..n]))
    ensures a[..n] == Order(old(a[..n])) && a[n..] == old(a[n..])
  {
    OutOfOrderCompares();
    ghost var s := a[..n];
    var sorted := false;
    while !sorted
      invariant SameByKey(Key, a[..n], s) && multiset(a[..n]) == multiset(s)
      invariant a[n..] == old(a[n..])
      invariant sorted ==> SortedBy(OutOfOrder, a[..n])
      decreases Inversions(OutOfOrder, a[..n]), !sorted
    {
      sorted := Pass(a, n);
    }
    SortedIsStableSort(Key, OutOfOrder, s, a[..n]);
  }

  /** One pass over the neighbours. */
  method Pass(a: array<string>, n: nat) returns (sorted: bool)
    requires n <= a.Length && Compares(Key, OutOfOrder)
    modifies a
    ensures SameByKey(Key, a[..n], old(a[..n])) && multiset(a[..n]) == multiset(old(a[..n]))
    ensures a[n..] == old(a[n..])
    ensures sorted ==> a[..n] == old(a[..n]) && SortedBy(OutOfOrder, a[..n])
    ensures !sorted ==> Inversions(OutOfOrder, a[..n]) < Inversions(OutOfOrder, old(a[..n]))
  {
    ghost var s := a[..n];
    sorted := true;
    var i := 0;
    while i < n - 1
      invariant 0 <= i && (i < n || i == 0)
      invariant SameByKey(Key, a[..n], s) && multiset(a[..n]) == multiset(s)
      invariant a[n..] == old(a[n..])
      invariant sorted ==> a[..n] == s && forall j :: 0 <= j < i ==> !OutOfOrder(s[j], s[j + 1])
      invariant !sorted ==> Inversions(OutOfOrder, a[..n]) < Inversions(OutOfOrder, s)
    {
      var swap := OutOfOrder(a[i], a[i + 1]);
      assert sorted ==> a[i] == s[i] && a[i + 1] == s[i + 1];
      if swap {
        SwapAt(a, n, i);
        sorted := false;
      }
      i := i + 1;
    }
    if sorted {
      SortedFromNeighbours(Key, OutOfOrder, s);
    }
  }

  method SwapAt(a: array<string>, n: nat, i: nat)
    requires i + 1 < n <= a.Length && OutOfOrder(a[i], a[i + 1]) && Compares(Key, OutOfOrder)
    modifies a
    ensures a[..n] == Swapped(old(a[..n]), i) && a[n..] == old(a[n..])
    ensures SameByKey(Key, a[..n], old(a[..n])) && multiset(a[..n]) == multiset(old(a[..n]))
    ensures Inversions(OutOfOrder, a[..n]) == Inversions(OutOfOrder, old(a[..n])) - 1
  {
    ghost var s := a[..n];
    SwapRemovesOne(OutOfOrder, s, i);
    forall k ensures WithKey(Key, Swapped(s, i), k) == WithKey(Key, s, k) {
      SwapKeepsKeys(Key, s, i, k);
    }
    var tmp := a[i];
    a[i] := a[i + 1];
    a[i + 1] := tmp;
    assert a[..n] == Swapped(s, i);
  }
}
