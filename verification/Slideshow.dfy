/** `fb_next_image`: a slideshow that has the next image loaded before it is asked
    for.  The menu is a ring of entries, some of them images. */
module Slideshow {

  const INT_MIN: int := -0x8000_0000
  const INT_MAX: int := 0x7fff_ffff

  /** How many images come before entry `i`. */
  ghost function Before(menu: seq<bool>, i: nat): nat
    requires i <= |menu|
  {
    if i == 0 then 0 else Before(menu, i - 1) + if menu[i - 1] then 1 else 0
  }

  ghost function Images(menu: seq<bool>): nat {
    Before(menu, |menu|)
  }

  lemma {:induction false} BeforeGrows(menu: seq<bool>, i: nat, j: nat)
    requires i <= j <= |menu|
    ensures Before(menu, i) <= Before(menu, j)
    ensures i < j && menu[i] ==> Before(menu, i) < Before(menu, j)
    decreases j - i
  {
    if i < j {
      BeforeGrows(menu, i, j - 1);
      if i == j - 1 {
      } else if menu[i] {
        BeforeGrows(menu, i, j - 1);
      }
    }
  }

  ghost predicate IsImage(menu: seq<bool>, i: int) {
    0 <= i < |menu| && menu[i]
  }

  /** An image is known by how many come before it. */
  lemma ImageByPosition(menu: seq<bool>, i: nat, j: nat)
    requires IsImage(menu, i) && IsImage(menu, j) && Before(menu, i) == Before(menu, j)
    ensures i == j
  {
    if i < j {
      BeforeGrows(menu, i, j);
    } else if j < i {
      BeforeGrows(menu, j, i);
    }
  }

  lemma PositionInRange(menu: seq<bool>, i: nat)
    requires IsImage(menu, i)
    ensures Before(menu, i) < Images(menu)
  {
    BeforeGrows(menu, i, |menu|);
  }

  /** `i` is the image `off` images on from image `c`, going round. */
  ghost predicate Around(menu: seq<bool>, c: nat, off: int, i: nat)
    requires IsImage(menu, c) && Images(menu) > 0
  {
    IsImage(menu, i) && Before(menu, i) == (Before(menu, c) + off) % Images(menu)
  }

  ghost function Abs(x: int): nat { if x < 0 then -x else x }

  /** Where the search of the code ends: it gives up when it is back at `c`. */
  ghost predicate Lands(menu: seq<bool>, c: nat, off: int, i: nat)
    requires IsImage(menu, c) && Images(menu) > 0
  {
    if Abs(off) < Images(menu) then Around(menu, c, off, i) else i == c
  }

  /** The search reaches the image `off` images on. */
  ghost predicate InReach(menu: seq<bool>, off: int)
    requires Images(menu) > 0
  {
    Abs(off) < Images(menu) || off % Images(menu) == 0
  }

  // ----- going round -----

  lemma {:induction false} AddRounds(x: int, k: nat, q: int)
    requires k > 0
    ensures (x + k * q) % k == x % k
    decreases Abs(q)
  {
    if q > 0 {
      AddRounds(x, k, q - 1);
      OneRound(x + k * (q - 1), k);
      assert x + k * q == x + k * (q - 1) + k;
    } else if q < 0 {
      AddRounds(x, k, q + 1);
      OneRound(x + k * q, k);
      assert x + k * (q + 1) == x + k * q + k;
    }
  }

  lemma OneRound(x: int, k: nat)
    requires k > 0
    ensures (x + k) % k == x % k
  {
    var q, r := x / k, x % k;
    assert x + k == k * (q + 1) + r;
    SameRest(x + k, k, q + 1, r);
  }

  /** Quotient and remainder are unique. */
  lemma SameRest(x: int, k: nat, q: int, r: nat)
    requires k > 0 && r < k && x == k * q + r
    ensures x % k == r
  {
    var q', r' := x / k, x % k;
    assert x == k * q' + r' && 0 <= r' < k;
    if q > q' {
      Multiples(k, q, q');
    } else if q < q' {
      Multiples(k, q', q);
    }
  }

  lemma {:induction false} Multiples(k: nat, a: int, b: int)
    requires a > b
    ensures k * a >= k * b + k
    decreases a - b
  {
    if a > b + 1 {
      Multiples(k, a - 1, b);
    }
    assert k * a == k * (a - 1) + k;
  }

  /** Moving by `a` and then by `b` is moving by `a + b`. */
  lemma MovesAdd(x: int, a: int, b: int, k: nat)
    requires k > 0
    ensures ((x + a) % k + b) % k == (x + a + b) % k
  {
    var q := (x + a) / k;
    assert x + a == k * q + (x + a) % k;
    AddRounds((x + a) % k + b, k, q);
    assert (x + a) % k + b + k * q == x + a + b;
  }

  lemma BackAgain(x: nat, off: int, k: nat)
    requires x < k
    ensures (x + off) % k == x <==> off % k == 0
  {
    MovesAdd(0, off, x, k);
    assert (off % k + x) % k == (x + off) % k;
    var r := off % k;
    if r + x < k {
      SameRest(r + x, k, 0, r + x);
    } else {
      SameRest(r + x, k, 1, r + x - k);
    }
  }

  /** The search is right exactly within reach. */
  lemma LandsExact(menu: seq<bool>, c: nat, off: int, i: nat)
    requires IsImage(menu, c) && Images(menu) > 0 && Lands(menu, c, off, i)
    ensures Around(menu, c, off, i) <==> InReach(menu, off)
  {
    PositionInRange(menu, c);
    if Abs(off) >= Images(menu) {
      BackAgain(Before(menu, c), off, Images(menu));
    }
  }

  lemma AroundTwice(menu: seq<bool>, d: nat, a: int, c: nat, b: int, i: nat)
    requires Images(menu) > 0 && IsImage(menu, d) && IsImage(menu, c)
    requires Around(menu, d, a, c)
    ensures Around(menu, c, b, i) <==> Around(menu, d, a + b, i)
  {
    MovesAdd(Before(menu, d), a, b, Images(menu));
  }

  // ----- the search -----

  /** How many images a search from `c` has passed when it comes to look at `u`,
      counted on without going round (from `c + 1` up, or from `c - 1` down). */
  ghost function Passed(menu: seq<bool>, c: nat, o: int, u: int): int
    requires c < |menu| && (o == 1 || o == -1)
    requires o == 1 ==> c < u <= c + |menu|
    requires o == -1 ==> c - |menu| <= u < c
  {
    var n, k := |menu|, Images(menu);
    if o == 1 then
      if u <= n then Before(menu, u) - Before(menu, c + 1)
      else k - Before(menu, c + 1) + Before(menu, u - n)
    else
      if u >= -1 then Before(menu, c) - Before(menu, u + 1)
      else Before(menu, c) + k - Before(menu, u + 1 + n)
  }

  /** `o * x` for the two directions. */
  function Along(o: int, x: int): int { if o == 1 then x else -x }

  function Wrapped(u: int, n: nat): int
    requires n > 0 && 0 <= u + n && u < 2 * n
  {
    if u < 0 then u + n else if u >= n then u - n else u
  }

  /** Looking at one more entry. */
  lemma PassOne(menu: seq<bool>, c: nat, o: int, u: int)
    requires c < |menu| && (o == 1 || o == -1)
    requires o == 1 ==> c < u < c + |menu|
    requires o == -1 ==> c - |menu| < u < c
    ensures var i := Wrapped(u, |menu|);
            0 <= i < |menu|
            && Passed(menu, c, o, u + o) == Passed(menu, c, o, u) + if menu[i] then 1 else 0
  {
  }

  /** `(i + o + n) % n`. */
  lemma StepRound(i: int, o: int, n: nat)
    requires 0 <= i < n && (o == 1 || o == -1)
    ensures (i + o + n) % n == Wrapped(i + o, n)
  {
    if o == 1 {
      SameRest(i + o + n, n, if i + 1 < n then 1 else 2, Wrapped(i + o, n));
    } else {
      SameRest(i + o + n, n, if i > 0 then 1 else 0, Wrapped(i + o, n));
    }
  }

  lemma LandsAtOnce(menu: seq<bool>, c: nat)
    requires IsImage(menu, c) && Images(menu) > 0
    ensures Lands(menu, c, 0, c)
  {
    PositionInRange(menu, c);
    SameRest(Before(menu, c) + 0, Images(menu), 0, Before(menu, c));
  }

  /** After a full round all the other images were passed. */
  lemma PassAll(menu: seq<bool>, c: nat, o: int)
    requires IsImage(menu, c) && (o == 1 || o == -1)
    ensures Passed(menu, c, o, c + o) == 0
    ensures Passed(menu, c, o, c + Along(o, |menu|)) == Images(menu) - 1
  {
  }

  /** The entry where `steps` images were passed is that many images on. */
  lemma PassedIsAround(menu: seq<bool>, c: nat, o: int, u: int, steps: nat)
    requires IsImage(menu, c) && (o == 1 || o == -1) && 0 < steps
    requires o == 1 ==> c < u < c + |menu|
    requires o == -1 ==> c - |menu| < u < c
    requires menu[Wrapped(u, |menu|)] && Passed(menu, c, o, u + o) == steps
    ensures steps < Images(menu) && Around(menu, c, Along(o, steps), Wrapped(u, |menu|))
  {
    var i, k := Wrapped(u, |menu|), Images(menu);
    PositionInRange(menu, c);
    PositionInRange(menu, i);
    PassOne(menu, c, o, u);
    BeforeGrows(menu, 0, c);
    if o == 1 {
      if u < |menu| {
        SameRest(Before(menu, c) + steps, k, 0, Before(menu, i));
        BeforeGrows(menu, c + 1, u);
      } else {
        SameRest(Before(menu, c) + steps, k, 1, Before(menu, i));
        BeforeGrows(menu, i, c);
      }
    } else {
      if u >= 0 {
        SameRest(Before(menu, c) - steps, k, 0, Before(menu, i));
      } else {
        SameRest(Before(menu, c) - steps, k, -1, Before(menu, i));
        BeforeGrows(menu, c, i);
      }
    }
  }

  /** Prefetching shows what the request asks for exactly when the correction it makes
      is within reach.  `d` was shown, `c` is loaded, `lo` images on from `d`. */
  lemma PrefetchExact(menu: seq<bool>, d: nat, lo: int, c: nat, off: int, s: nat)
    requires Images(menu) > 0 && IsImage(menu, d) && IsImage(menu, c)
    requires Around(menu, d, lo, c) && Lands(menu, c, off - lo, s)
    ensures Around(menu, d, off, s) <==> InReach(menu, off - lo)
  {
    LandsExact(menu, c, off - lo, s);
    AroundTwice(menu, d, lo, c, off - lo, s);
  }

  /** With fifteen images and the eleventh loaded while the first is shown, a request
      for ten back shows the eleventh; without prefetching it shows the sixth, as it
      should. */
  lemma PrefetchCanBeWrong()
    ensures var menu := seq(15, _ => true);
            && Images(menu) == 15 && IsImage(menu, 0) && IsImage(menu, 10)
            && Around(menu, 0, 10, 10)
            && Lands(menu, 10, -10 - 10, 10) && !Around(menu, 0, -10, 10)
            && Lands(menu, 0, -10, 5) && Around(menu, 0, -10, 5)
  {
    var menu := seq(15, _ => true);
    AllImages(menu, 15);
    AllImages(menu, 10);
    AllImages(menu, 5);
    AllImages(menu, 0);
  }

  lemma {:induction false} AllImages(menu: seq<bool>, n: nat)
    requires n <= |menu| && forall i :: 0 <= i < |menu| ==> menu[i]
    ensures Before(menu, n) == n
  {
    if n > 0 {
      AllImages(menu, n - 1);
    }
  }

  // ----- the code -----

  predicate Regular(offset: int) {
    offset != 0 && offset != INT_MIN && offset != INT_MAX
  }

  /** The way from the loaded image to the one asked for is empty or no jump. */
  predicate Corrects(request: int, loadedOffset: int) {
    Regular(loadedOffset) && (request == loadedOffset || Regular(request - loadedOffset))
  }

  ghost function Sum(s: seq<int>): int {
    if s == [] then 0 else Sum(s[..|s| - 1]) + s[|s| - 1]
  }

  class Viewer {
    /** The entries of the menu that are images, and how loading each one ends. */
    const menu: seq<bool>
    const loads: int -> int

    /** The entry of the current file; it is loaded but not shown. */
    var current: int
    var loadedOffset: int
    var loadedStatus: int
    var loaded: int

    /** The entry on the screen. */
    var shown: int

    ghost predicate Valid()
      reads this
    {
      && IsImage(menu, current) && IsImage(menu, shown) && Images(menu) > 0
      && loaded == current
    }

    /** `select_callback` for an image: show it and load the next one. */
    constructor Select(menu: seq<bool>, loads: int -> int, entry: int)
      requires IsImage(menu, entry)
      ensures Valid() && this.menu == menu && shown == entry
      ensures loadedOffset == 1 && Lands(menu, entry, 1, current)
    {
      this.menu, this.loads := menu, loads;
      current, shown, loaded := entry, entry, entry;
      loadedOffset, loadedStatus := 0, 0;
      new;
      PositionInRange(menu, entry);
      var _ := NextImage(1);
    }

    /** Load the current image. */
    method Load()
      modifies this`loaded, this`loadedStatus
      ensures loaded == current
    {
      loadedStatus := loads(current);
      loaded := current;
    }

    /** Step over the menu until `offset` images were passed, or back at the start. */
    method Search(offset: int) returns (i: int)
      requires Valid() && offset != 0
      ensures 0 <= i && Lands(menu, current, offset, i)
    {
      hide Passed, Before, Around;
      var n, c := |menu|, current;
      var o := if offset > 0 then 1 else -1;
      var left := offset;
      StepRound(c, o, n);
      PassAll(menu, c, o);
      i := (c + o + n) % n;
      ghost var u, end := c + o, c + Along(o, n);
      while i != c
        invariant if o == 1 then c < u <= end else end <= u < c
        invariant i == Wrapped(u, n) && 0 <= i < n && (i == c <==> u == end)
        invariant Along(o, left) > 0 && Along(o, offset - left) == Passed(menu, c, o, u)
        decreases Along(o, end - u)
      {
        PassOne(menu, c, o, u);
        StepRound(i, o, n);
        if menu[i] {
          left := left - o;
        }
        if left == 0 {
          PassedIsAround(menu, c, o, u, Abs(offset));
          return;
        }
        i := (i + o + n) % n;
        u := u + o;
      }
    }

    /** The first image of the menu. */
    method FirstImage() returns (i: int)
      requires Valid()
      ensures IsImage(menu, i) && Before(menu, i) == 0
    {
      i := 0;
      while !menu[i]
        invariant 0 <= i <= current && Before(menu, i) == 0
        decreases current - i
      {
        i := i + 1;
      }
    }

    /** Make another image the current one and load it.  The jump to the last image
        starts behind the end of the menu, where it finds no entry. */
    method Advance(offset: int) returns (ret: int)
      requires Valid() && offset != 0
      modifies this`loadedOffset, this`current, this`loaded, this`loadedStatus
      ensures loadedOffset == offset && Valid()
      ensures ret == if offset == INT_MAX then -1 else 0
      ensures offset == INT_MAX ==> current == old(current)
      ensures offset == INT_MIN ==> Before(menu, current) == 0 && IsImage(menu, current)
      ensures Regular(offset) ==> Lands(menu, old(current), offset, current)
    {
      loadedOffset := offset;
      if offset == INT_MAX {
        return -1;
      }
      var i;
      if offset == INT_MIN {
        i := FirstImage();
      } else {
        i := Search(offset);
      }
      current := i;
      Load();
      ret := 0;
    }

    /** `fb_next_image`. */
    method NextImage(request: int) returns (ret: int)
      requires Valid()
      modifies this`loadedOffset, this`current, this`loaded, this`loadedStatus, this`shown
      ensures Valid()
      ensures Regular(request) && old(loadedOffset) == 0 ==>
                shown == old(shown) && loadedOffset == request && Lands(menu, old(current), request, current)
      ensures Regular(request) && Corrects(request, old(loadedOffset)) ==>
                && Lands(menu, old(current), request - old(loadedOffset), shown)
                && loadedOffset == request && Lands(menu, shown, request, current)
      ensures request == 0 && Regular(old(loadedOffset)) ==>
                && shown == old(current)
                && loadedOffset == old(loadedOffset) && Lands(menu, shown, loadedOffset, current)
      ensures request == 0 && old(loadedOffset) == 0 ==>
                shown == old(current) && loadedOffset == 1 && Lands(menu, shown, 1, current)
      ensures request == INT_MAX ==>
                && ret == -1 && current == old(current)
                && shown == if old(loadedOffset) == 0 then old(shown) else old(current)
      ensures request == INT_MIN ==> ret == 0 && Before(menu, current) == 0
      ensures request == INT_MIN && old(loadedOffset) == 0 ==> shown == old(shown)
      ensures request == INT_MIN && Regular(old(loadedOffset)) ==> shown == current
      decreases loadedOffset != 0
    {
      var offset := request;
      LandsAtOnce(menu, current);
      if offset == 0 {
        if loadedOffset != 0 {
          offset := loadedOffset;
        } else {
          Load();
          offset, loadedOffset := 1, 1;
        }
      }
      if loadedOffset != 0 {
        if offset != loadedOffset {
          var o := if offset == INT_MIN || offset == INT_MAX then offset else offset - loadedOffset;
          loadedOffset := 0;
          var _ := NextImage(o);
        }
        shown := if loadedStatus == -1 then current else loaded;
      }
      ret := Advance(offset);
      if request == INT_MIN && Before(menu, shown) == 0 {
        ImageByPosition(menu, shown, current);
      }
    }

    /** Requests answered one after the other, each within reach as it stands: the
        screen is where their sum leads. */
    method Requests(offsets: seq<int>)
      requires Valid() && Around(menu, shown, loadedOffset, current) && Regular(loadedOffset)
      requires forall i :: 0 <= i < |offsets| ==> Regular(offsets[i]) && InReach(menu, offsets[i])
      requires forall i :: 0 <= i < |offsets| ==>
                 var lo := if i == 0 then loadedOffset else offsets[i - 1];
                 Corrects(offsets[i], lo) && InReach(menu, offsets[i] - lo)
      modifies this`loadedOffset, this`current, this`loaded, this`loadedStatus, this`shown
      ensures Valid() && Around(menu, old(shown), Sum(offsets), shown)
      ensures Around(menu, shown, loadedOffset, current)
    {
      var i := 0;
      ghost var first := shown;
      assert Around(menu, first, 0, first) by { LandsAtOnce(menu, shown); PositionInRange(menu, first); }
      while i < |offsets|
        invariant 0 <= i <= |offsets| && Valid() && Around(menu, first, Sum(offsets[..i]), shown)
        invariant loadedOffset == if i == 0 then old(loadedOffset) else offsets[i - 1]
        invariant Regular(loadedOffset) && Around(menu, shown, loadedOffset, current)
      {
        Request(offsets[i], first, Sum(offsets[..i]));
        assert offsets[..i + 1][..i] == offsets[..i];
        i := i + 1;
      }
      assert offsets[..i] == offsets;
    }

    method Request(offset: int, ghost first: int, ghost sum: int)
      requires Valid() && Around(menu, shown, loadedOffset, current)
      requires Regular(offset) && Corrects(offset, loadedOffset)
      requires InReach(menu, offset) && InReach(menu, offset - loadedOffset)
      requires IsImage(menu, first) && Around(menu, first, sum, shown)
      modifies this`loadedOffset, this`current, this`loaded, this`loadedStatus, this`shown
      ensures Valid() && loadedOffset == offset && Around(menu, shown, offset, current)
      ensures Around(menu, first, sum + offset, shown)
    {
      ghost var d, lo, c := shown, loadedOffset, current;
      var _ := NextImage(offset);
      PrefetchExact(menu, d, lo, c, offset, shown);
      LandsExact(menu, shown, offset, current);
      AroundTwice(menu, first, sum, d, offset, shown);
    }
  }
}
