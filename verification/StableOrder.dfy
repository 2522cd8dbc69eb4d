/** Stable sorting in general: what it means, why it is unique, and what swapping two
    neighbours does.  `out` says which pairs are out of order, `key` what they are
    compared by. */
module StableOrder {
  import opened Bytes

  ghost predicate SortedBy<T>(out: (T, T) -> bool, s: seq<T>) {
    forall i, j :: 0 <= i < j < |s| ==> !out(s[i], s[j])
  }

  /** Exactly one way round is out of order, unless the keys are equal. */
  ghost predicate Compares<T(!new), K>(key: T -> K, out: (T, T) -> bool) {
    && (forall a, b :: out(a, b) ==> !out(b, a) && key(a) != key(b))
    && (forall a, b :: !out(a, b) && !out(b, a) ==> key(a) == key(b))
    && (forall a, b, c :: !out(a, b) && !out(b, c) ==> !out(a, c))
  }

  ghost function Matching<T, K>(key: T -> K, x: T, k: K): seq<T> {
    if key(x) == k then [x] else []
  }

  /** The entries with this key, in their order. */
  ghost function WithKey<T, K>(key: T -> K, s: seq<T>, k: K): seq<T> {
    if s == [] then [] else Matching(key, s[0], k) + WithKey(key, s[1..], k)
  }

  /** Rearranged without changing the order of entries with equal keys. */
  ghost predicate SameByKey<T, K(!new)>(key: T -> K, s: seq<T>, t: seq<T>) {
    forall k :: WithKey(key, s, k) == WithKey(key, t, k)
  }

  lemma {:induction false} WithKeyConcat<T, K>(key: T -> K, s: seq<T>, t: seq<T>, k: K)
    ensures WithKey(key, s + t, k) == WithKey(key, s, k) + WithKey(key, t, k)
  {
    if s == [] {
      assert s + t == t;
    } else {
      assert (s + t)[1..] == s[1..] + t && (s + t)[0] == s[0];
      WithKeyConcat(key, s[1..], t, k);
      Regroup(Matching(key, s[0], k), WithKey(key, s[1..], k), WithKey(key, t, k));
    }
  }

  lemma {:induction false} WithKeyMember<T, K>(key: T -> K, s: seq<T>, i: nat)
    requires i < |s|
    ensures WithKey(key, s, key(s[i])) != []
  {
    if i > 0 {
      WithKeyMember(key, s[1..], i - 1);
    }
  }

  lemma {:induction false} WithKeyFrom<T, K>(key: T -> K, s: seq<T>, k: K) returns (i: nat)
    requires WithKey(key, s, k) != []
    ensures i < |s| && key(s[i]) == k
  {
    if key(s[0]) == k {
      i := 0;
    } else {
      i := WithKeyFrom(key, s[1..], k);
      i := i + 1;
    }
  }

  lemma HeadsAgree<T(!new), K(!new)>(key: T -> K, out: (T, T) -> bool, s: seq<T>, t: seq<T>)
    requires Compares(key, out) && SortedBy(out, s) && SortedBy(out, t) && SameByKey(key, s, t) && s != []
    ensures t != [] && s[0] == t[0]
  {
    var k := key(s[0]);
    WithKeyMember(key, s, 0);
    assert WithKey(key, t, k) != [];
    var j := WithKeyFrom(key, t, k);
    var k' := key(t[0]);
    WithKeyMember(key, t, 0);
    assert WithKey(key, s, k') != [];
    var i := WithKeyFrom(key, s, k');
    assert i == 0 || !out(s[0], s[i]);
    assert j == 0 || !out(t[0], t[j]);
    SameKeySameSide(key, out, s[0], s[i], t[0], t[j]);
    assert WithKey(key, s, k)[0] == s[0] && WithKey(key, t, k)[0] == t[0];
  }

  /** Two heads that come before an entry with the other's key have the same key. */
  lemma SameKeySameSide<T(!new), K>(key: T -> K, out: (T, T) -> bool, x: T, x': T, y: T, y': T)
    requires Compares(key, out) && key(x') == key(y) && key(y') == key(x)
    requires (x == x' || !out(x, x')) && (y == y' || !out(y, y'))
    ensures key(x) == key(y)
  {
    assert !out(x', y) && !out(y', x);
    assert !out(x, y) && !out(y, x);
  }

  /** There is only one stable way to sort. */
  lemma {:induction false} StableSortIsUnique<T(!new), K(!new)>(
      key: T -> K, out: (T, T) -> bool, s: seq<T>, t: seq<T>)
    requires Compares(key, out) && SortedBy(out, s) && SortedBy(out, t) && SameByKey(key, s, t)
    ensures s == t
    decreases |s|
  {
    if s == [] {
      if t != [] {
        WithKeyMember(key, t, 0);
      }
    } else {
      HeadsAgree(key, out, s, t);
      forall k ensures WithKey(key, s[1..], k) == WithKey(key, t[1..], k) {
        assert WithKey(key, s, k) == WithKey(key, t, k);
        CancelPrefix(Matching(key, s[0], k), WithKey(key, s[1..], k), WithKey(key, t[1..], k));
      }
      StableSortIsUnique(key, out, s[1..], t[1..]);
      assert s == [s[0]] + s[1..] && t == [t[0]] + t[1..];
    }
  }

  // ----- swapping neighbours -----

  function Swapped<T>(s: seq<T>, i: nat): (t: seq<T>)
    requires i + 1 < |s|
    ensures |t| == |s|
  {
    s[i := s[i + 1]][i + 1 := s[i]]
  }

  /** How many of `s` come too early before `x`. */
  ghost function Late<T>(out: (T, T) -> bool, s: seq<T>, x: T): nat {
    if s == [] then 0
    else Late(out, s[..|s| - 1], x) + if out(s[|s| - 1], x) then 1 else 0
  }

  /** The pairs that are out of order. */
  ghost function Inversions<T>(out: (T, T) -> bool, s: seq<T>): nat {
    if s == [] then 0
    else Inversions(out, s[..|s| - 1]) + Late(out, s[..|s| - 1], s[|s| - 1])
  }

  lemma TwoLast<T>(s: seq<T>)
    requires |s| >= 2
    ensures var i := |s| - 2;
            s == s[..i] + [s[i], s[i + 1]] && Swapped(s, i) == s[..i] + [s[i + 1], s[i]]
  {
  }

  lemma LateTwo<T>(out: (T, T) -> bool, s: seq<T>, x: T, y: T, z: T)
    ensures Late(out, s + [x, y], z)
         == Late(out, s, z) + (if out(x, z) then 1 else 0) + if out(y, z) then 1 else 0
  {
    assert (s + [x, y])[..|s| + 1] == s + [x];
    assert (s + [x])[..|s|] == s;
  }

  lemma {:induction false} LateSwap<T>(out: (T, T) -> bool, s: seq<T>, i: nat, z: T)
    requires i + 1 < |s|
    ensures Late(out, Swapped(s, i), z) == Late(out, s, z)
    decreases |s|
  {
    var n := |s| - 1;
    if i + 1 < n {
      assert Swapped(s, i)[..n] == Swapped(s[..n], i);
      LateSwap(out, s[..n], i, z);
    } else {
      TwoLast(s);
      LateTwo(out, s[..i], s[i], s[i + 1], z);
      LateTwo(out, s[..i], s[i + 1], s[i], z);
    }
  }

  lemma LastPair<T>(out: (T, T) -> bool, s: seq<T>, x: T, y: T)
    ensures Inversions(out, s + [x, y])
         == Inversions(out, s) + Late(out, s, x) + Late(out, s, y) + if out(x, y) then 1 else 0
  {
    var n := |s|;
    assert (s + [x, y])[..n + 1] == s + [x];
    assert (s + [x])[..n] == s;
  }

  /** Putting two neighbours right removes exactly one inversion. */
  lemma {:induction false} SwapRemovesOne<T>(out: (T, T) -> bool, s: seq<T>, i: nat)
    requires i + 1 < |s| && out(s[i], s[i + 1]) && !out(s[i + 1], s[i])
    ensures Inversions(out, Swapped(s, i)) == Inversions(out, s) - 1
    decreases |s|
  {
    var n := |s| - 1;
    if i + 1 < n {
      SwapRemovesOne(out, s[..n], i);
      LateSwap(out, s[..n], i, s[n]);
      assert Swapped(s, i)[..n] == Swapped(s[..n], i);
    } else {
      TwoLast(s);
      LastPair(out, s[..i], s[i], s[i + 1]);
      LastPair(out, s[..i], s[i + 1], s[i]);
    }
  }

  /** ... and keeps the order of entries with equal keys. */
  lemma SwapKeepsKeys<T, K>(key: T -> K, s: seq<T>, i: nat, k: K)
    requires i + 1 < |s| && key(s[i]) != key(s[i + 1])
    ensures WithKey(key, Swapped(s, i), k) == WithKey(key, s, k)
  {
    var a, x, y, b := s[..i], s[i], s[i + 1], s[i + 2..];
    Around(s, i, x, y);
    Around(Swapped(s, i), i, y, x);
    assert Swapped(s, i)[..i] == a && Swapped(s, i)[i + 2..] == b;
    PairCommutes(key, x, y, k);
    Middle(key, a, [x, y], [y, x], b, k);
  }

  lemma Around<T>(s: seq<T>, i: nat, x: T, y: T)
    requires i + 1 < |s| && s[i] == x && s[i + 1] == y
    ensures s == s[..i] + ([x, y] + s[i + 2..])
  {
  }

  lemma Middle<T, K>(key: T -> K, a: seq<T>, m: seq<T>, m': seq<T>, b: seq<T>, k: K)
    requires WithKey(key, m, k) == WithKey(key, m', k)
    ensures WithKey(key, a + (m + b), k) == WithKey(key, a + (m' + b), k)
  {
    WithKeyConcat(key, a, m + b, k);
    WithKeyConcat(key, a, m' + b, k);
    WithKeyConcat(key, m, b, k);
    WithKeyConcat(key, m', b, k);
  }

  lemma PairCommutes<T, K>(key: T -> K, x: T, y: T, k: K)
    requires key(x) != key(y)
    ensures WithKey(key, [x, y], k) == WithKey(key, [y, x], k)
  {
    PairKeys(key, x, y, k);
    PairKeys(key, y, x, k);
  }

  lemma PairKeys<T, K>(key: T -> K, x: T, y: T, k: K)
    ensures WithKey(key, [x, y], k) == Matching(key, x, k) + Matching(key, y, k)
    ensures WithKey(key, [x], k) == Matching(key, x, k)
  {
    var none: seq<T> := [];
    assert [x, y][1..] == [y] && [y][1..] == none && [x][1..] == none;
    assert WithKey(key, [y], k) == Matching(key, y, k) + WithKey(key, none, k);
    assert WithKey(key, [x], k) == Matching(key, x, k) + WithKey(key, none, k);
  }

  lemma SortedFromNeighbours<T(!new), K>(key: T -> K, out: (T, T) -> bool, s: seq<T>)
    requires Compares(key, out)
    requires forall i :: 0 <= i < |s| - 1 ==> !out(s[i], s[i + 1])
    ensures SortedBy(out, s)
  {
    forall i, j | 0 <= i < j < |s| ensures !out(s[i], s[j]) {
      Ascending(key, out, s, i, j);
    }
  }

  lemma {:induction false} Ascending<T(!new), K>(key: T -> K, out: (T, T) -> bool, s: seq<T>, i: nat, j: nat)
    requires Compares(key, out) && i < j < |s|
    requires forall k :: 0 <= k < |s| - 1 ==> !out(s[k], s[k + 1])
    ensures !out(s[i], s[j])
    decreases j - i
  {
    assert !out(s[j - 1], s[j - 1 + 1]);
    if i < j - 1 {
      Ascending(key, out, s, i, j - 1);
    }
  }

  // ----- the sorted list as a function -----

  ghost function Inserted<T>(out: (T, T) -> bool, s: seq<T>, x: T): seq<T> {
    if s != [] && out(s[|s| - 1], x) then Inserted(out, s[..|s| - 1], x) + [s[|s| - 1]] else s + [x]
  }

  ghost function StableSort<T>(out: (T, T) -> bool, s: seq<T>): seq<T> {
    if s == [] then [] else Inserted(out, StableSort(out, s[..|s| - 1]), s[|s| - 1])
  }

  lemma {:induction false} InsertedSize<T>(out: (T, T) -> bool, s: seq<T>, x: T)
    ensures |Inserted(out, s, x)| == |s| + 1
  {
    if s != [] && out(s[|s| - 1], x) {
      InsertedSize(out, s[..|s| - 1], x);
    }
  }

  lemma {:induction false} StableSortSize<T>(out: (T, T) -> bool, s: seq<T>)
    ensures |StableSort(out, s)| == |s|
  {
    if s != [] {
      StableSortSize(out, s[..|s| - 1]);
      InsertedSize(out, StableSort(out, s[..|s| - 1]), s[|s| - 1]);
    }
  }

  lemma {:induction false} StableSortMembers<T>(out: (T, T) -> bool, s: seq<T>, y: T)
    ensures y in StableSort(out, s) <==> y in s
  {
    if s != [] {
      var front, last := s[..|s| - 1], s[|s| - 1];
      StableSortMembers(out, front, y);
      InsertedHas(out, StableSort(out, front), last, y);
      assert s == front + [last];
    }
  }

  lemma {:induction false} InsertedHas<T>(out: (T, T) -> bool, s: seq<T>, x: T, y: T)
    ensures y in Inserted(out, s, x) <==> y in s || y == x
  {
    if s != [] && out(s[|s| - 1], x) {
      InsertedHas(out, s[..|s| - 1], x, y);
      assert s == s[..|s| - 1] + [s[|s| - 1]];
    }
  }

  lemma {:induction false} InsertedMembers<T>(out: (T, T) -> bool, s: seq<T>, x: T)
    ensures forall y :: y in Inserted(out, s, x) ==> y in s || y == x
  {
    if s != [] && out(s[|s| - 1], x) {
      InsertedMembers(out, s[..|s| - 1], x);
    }
  }

  lemma {:induction false} InsertedIsSorted<T(!new), K>(key: T -> K, out: (T, T) -> bool, s: seq<T>, x: T)
    requires SortedBy(out, s) && Compares(key, out)
    ensures SortedBy(out, Inserted(out, s, x))
  {
    if s != [] && out(s[|s| - 1], x) {
      var front, last := s[..|s| - 1], s[|s| - 1];
      InsertedIsSorted(key, out, front, x);
      InsertedMembers(out, front, x);
      var t := Inserted(out, front, x);
      forall i | 0 <= i < |t| ensures !out(t[i], last) {
        assert t[i] in t;
      }
    }
  }

  lemma {:induction false} InsertedByKey<T(!new), K>(key: T -> K, out: (T, T) -> bool, s: seq<T>, x: T, k: K)
    requires Compares(key, out)
    ensures WithKey(key, Inserted(out, s, x), k) == WithKey(key, s, k) + Matching(key, x, k)
  {
    PairKeys(key, x, x, k);
    if s != [] && out(s[|s| - 1], x) {
      var front, last := s[..|s| - 1], s[|s| - 1];
      InsertedByKey(key, out, front, x, k);
      WithKeyConcat(key, Inserted(out, front, x), [last], k);
      WithKeyConcat(key, front, [last], k);
      PairKeys(key, last, last, k);
      assert s == front + [last];
    } else {
      WithKeyConcat(key, s, [x], k);
    }
  }

  lemma {:induction false} StableSortSorts<T(!new), K(!new)>(key: T -> K, out: (T, T) -> bool, s: seq<T>)
    requires Compares(key, out)
    ensures SortedBy(out, StableSort(out, s)) && SameByKey(key, StableSort(out, s), s)
  {
    if s != [] {
      var front, last := s[..|s| - 1], s[|s| - 1];
      StableSortSorts(key, out, front);
      InsertedIsSorted(key, out, StableSort(out, front), last);
      assert s == front + [last];
      forall k ensures WithKey(key, StableSort(out, s), k) == WithKey(key, s, k) {
        InsertedByKey(key, out, StableSort(out, front), last, k);
        WithKeyConcat(key, front, [last], k);
        PairKeys(key, last, last, k);
      }
    }
  }

  /** Every stable sorted rearrangement is this function of the list. */
  lemma SortedIsStableSort<T(!new), K(!new)>(key: T -> K, out: (T, T) -> bool, s: seq<T>, t: seq<T>)
    requires Compares(key, out) && SortedBy(out, t) && SameByKey(key, t, s)
    ensures t == StableSort(out, s)
  {
    StableSortSorts(key, out, s);
    forall k ensures WithKey(key, t, k) == WithKey(key, StableSort(out, s), k) {
      assert WithKey(key, t, k) == WithKey(key, s, k) == WithKey(key, StableSort(out, s), k);
    }
    StableSortIsUnique(key, out, t, StableSort(out, s));
  }
}
