/** Sorting of the rasteriser's edge list by the upper y coordinate: a median-of-three
    quicksort that stops at short ranges, then one insertion pass over everything. */
module EdgeSort {
  import Numbers

  // stbtt__edge. Coordinates are reals, so the comparison is a total preorder (no NaN).
  datatype Edge = Edge(x0: real, y0: real, x1: real, y1: real, invert: bool)

  predicate Before(a: Edge, b: Edge) {
    a.y0 < b.y0
  }

  ghost predicate Sorted(s: seq<Edge>) {
    forall u, v :: 0 <= u < v < |s| ==> !Before(s[v], s[u])
  }

  // Every edge of l may stand before every edge of r.
  ghost predicate Below(l: seq<Edge>, r: seq<Edge>) {
    forall x, y :: x in l && y in r ==> !Before(y, x)
  }

  // What the quicksort promises: a range longer than twelve is cut into two non-empty parts
  // in the right order. The left part may end in one edge that neither recursion visits.
  ghost predicate Coarse(s: seq<Edge>)
    decreases |s|
  {
    |s| <= 12 ||
    exists i, j :: 0 < i < |s| && i - 1 <= j <= i &&
                   Below(s[..i], s[i..]) && Coarse(s[..j]) && Coarse(s[i..])
  }

  // A coarse arrangement t of the edges w, put between pre and post, completes a coarse range.
  ghost predicate Completes(pre: seq<Edge>, w: multiset<Edge>, post: seq<Edge>) {
    forall t: seq<Edge> :: multiset(t) == w && Coarse(t) ==> Coarse(pre + t + post)
  }

  lemma SameMembers(s: seq<Edge>, t: seq<Edge>)
    requires multiset(s) == multiset(t)
    ensures |s| == |t| && forall x :: x in s <==> x in t
  {
    assert |multiset(s)| == |multiset(t)|;
    forall x ensures x in s <==> x in t {
      assert x in s <==> x in multiset(s);
      assert x in t <==> x in multiset(t);
    }
  }

  // x, an optional leftover edge g, and y in the right order make a coarse range.
  lemma Assemble(x: seq<Edge>, g: seq<Edge>, y: seq<Edge>)
    requires |g| <= 1 && 0 < |x + g| && 0 < |y| && Below(x + g, y) && Coarse(x) && Coarse(y)
    ensures Coarse(x + g + y)
  {
    var s, i, j := x + g + y, |x + g|, |x|;
    assert s[..i] == x + g && s[i..] == y && s[..j] == x;
  }

  lemma Regroup(pre: seq<Edge>, x: seq<Edge>, g: seq<Edge>, y: seq<Edge>, post: seq<Edge>)
    ensures pre + (x + g) + y + post == pre + (x + g + y) + post == pre + x + (g + y + post)
  {
    assert pre + (x + g) + y == pre + (x + g + y);
    assert pre + x + g + y == pre + (x + g + y);
    assert pre + x + (g + y) == pre + x + g + y;
    assert g + y + post == (g + y) + post;
  }

  // The left recursion is done; what remains is the right part.
  lemma RightRemains(pre: seq<Edge>, x: seq<Edge>, g: seq<Edge>, y: seq<Edge>, post: seq<Edge>)
    requires |g| <= 1 && 0 < |x + g| && 0 < |y| && Below(x + g, y) && Coarse(x)
    requires Completes(pre, multiset(x + g + y), post)
    ensures Completes(pre + (x + g), multiset(y), post)
  {
    forall t: seq<Edge> | multiset(t) == multiset(y) && Coarse(t)
      ensures Coarse(pre + (x + g) + t + post)
    {
      SameMembers(t, y);
      Assemble(x, g, t);
      assert multiset(x + g + t) == multiset(x + g + y);
      Regroup(pre, x, g, t, post);
    }
  }

  // The right recursion is done; what remains is the left part.
  lemma LeftFits(pre: seq<Edge>, x: seq<Edge>, t: seq<Edge>, g: seq<Edge>, y: seq<Edge>, post: seq<Edge>)
    requires |g| <= 1 && 0 < |x + g| && 0 < |y| && Below(x + g, y) && Coarse(y)
    requires Completes(pre, multiset(x + g + y), post)
    requires multiset(t) == multiset(x) && Coarse(t)
    ensures Coarse(pre + t + (g + y + post))
  {
    SameMembers(t, x);
    Assemble(t, g, y);
    Regroup(pre, t, g, y, post);
    hide Coarse, Below;
    assert multiset(t + g + y) == multiset(x + g + y);
  }

  lemma LeftRemains(pre: seq<Edge>, x: seq<Edge>, g: seq<Edge>, y: seq<Edge>, post: seq<Edge>)
    requires |g| <= 1 && 0 < |x + g| && 0 < |y| && Below(x + g, y) && Coarse(y)
    requires Completes(pre, multiset(x + g + y), post)
    ensures Completes(pre, multiset(x), g + y + post)
  {
    forall t: seq<Edge> | multiset(t) == multiset(x) && Coarse(t)
      ensures Coarse(pre + t + (g + y + post))
    {
      LeftFits(pre, x, t, g, y, post);
    }
  }

  // The edges of [lo, lo+n) are permuted, all others stay.
  ghost predicate Permutes(s: seq<Edge>, t: seq<Edge>, lo: int, n: int) {
    0 <= lo <= lo + n <= |s| == |t| && s[..lo] == t[..lo] && s[lo + n..] == t[lo + n..] &&
    multiset(s[lo..lo + n]) == multiset(t[lo..lo + n])
  }

  // A permutation of a part of the range is one of the range.
  lemma Widen(s: seq<Edge>, t: seq<Edge>, lo: int, n: int, l: int, m: int)
    requires 0 <= lo <= l <= l + m <= lo + n <= |s| && Permutes(s, t, l, m)
    ensures Permutes(s, t, lo, n)
    ensures s[lo..l] == t[lo..l] && s[l + m..lo + n] == t[l + m..lo + n]
  {
    assert s[lo..l] == s[..l][lo..] && t[lo..l] == t[..l][lo..];
    assert s[l + m..lo + n] == s[l + m..][..lo + n - l - m] && t[l + m..lo + n] == t[l + m..][..lo + n - l - m];
    assert s[lo..lo + n] == s[lo..l] + s[l..l + m] + s[l + m..lo + n];
    assert t[lo..lo + n] == t[lo..l] + t[l..l + m] + t[l + m..lo + n];
    assert s[..lo] == s[..l][..lo] && t[..lo] == t[..l][..lo];
    assert s[lo + n..] == s[l + m..][lo + n - l - m..] && t[lo + n..] == t[l + m..][lo + n - l - m..];
  }

  lemma PermutesTwice(r: seq<Edge>, s: seq<Edge>, t: seq<Edge>, lo: int, n: int)
    requires Permutes(r, s, lo, n) && Permutes(s, t, lo, n)
    ensures Permutes(r, t, lo, n)
  {}

  ghost function Swapped(s: seq<Edge>, u: int, v: int): seq<Edge>
    requires 0 <= u < |s| && 0 <= v < |s|
  {
    s[u := s[v]][v := s[u]]
  }

  lemma SwapPermutes(s: seq<Edge>, lo: int, n: int, u: int, v: int)
    requires 0 <= lo <= u < lo + n <= |s| && lo <= v < lo + n
    ensures Permutes(s, Swapped(s, u, v), lo, n)
  {
    var w := s[lo..lo + n];
    assert Swapped(s, u, v)[lo..lo + n] == Swapped(w, u - lo, v - lo);
  }

  method Swap(a: array<Edge>, u: nat, v: nat)
    requires u < a.Length && v < a.Length
    modifies a
    ensures a[..] == Swapped(old(a[..]), u, v)
    ensures a[u] == old(a[v]) && a[v] == old(a[u])
    ensures forall k :: 0 <= k < a.Length && k != u && k != v ==> a[k] == old(a[k])
  {
    var t := a[u];
    a[u] := a[v];
    a[v] := t;
  }

  // Puts the median of the first, middle and last edge in front. One of the two other
  // samples is then not before the pivot: it stops the unguarded upward scan.
  method MedianToFront(a: array<Edge>, lo: nat, n: nat) returns (ghost top: nat)
    requires lo + n <= a.Length && 12 < n
    modifies a
    ensures Permutes(old(a[..]), a[..], lo, n)
    ensures lo < top < lo + n && !Before(a[top], a[lo])
  {
    ghost var s := a[..];
    assert Permutes(s, s, lo, n);
    hide Permutes, Swapped;
    var m := lo + n / 2;
    var c01 := Before(a[lo], a[m]);
    var c12 := Before(a[m], a[lo + n - 1]);
    if c01 != c12 {
      var c := Before(a[lo], a[lo + n - 1]);
      var z := if c == c12 then lo else lo + n - 1;
      SwapPermutes(s, lo, n, z, m);
      Swap(a, z, m);
    }
    ghost var p := a[..];
    SwapPermutes(p, lo, n, lo, m);
    Swap(a, lo, m);
    PermutesTwice(s, p, a[..], lo, n);
    top := if !Before(a[lo + n - 1], a[lo]) then lo + n - 1 else m;
  }

  // The upward scan has no bound of its own. It stays inside the range because some edge
  // at or after its start, here the one at top, is not before the pivot.
  method ScanUp(a: array<Edge>, pivot: Edge, start: nat, ghost top: nat) returns (i: nat)
    requires start <= top < a.Length && !Before(a[top], pivot)
    ensures start <= i <= top && !Before(a[i], pivot)
    ensures forall k :: start <= k < i ==> Before(a[k], pivot)
  {
    i := start;
    while Before(a[i], pivot)
      invariant start <= i <= top
      invariant forall k :: start <= k < i ==> Before(a[k], pivot)
      decreases top - i
    {
      i := i + 1;
    }
  }

  // The downward scan stops at the latest at some edge that is not after the pivot.
  method ScanDown(a: array<Edge>, pivot: Edge, start: nat, ghost bottom: nat) returns (j: nat)
    requires bottom <= start < a.Length && !Before(pivot, a[bottom])
    ensures bottom <= j <= start && !Before(pivot, a[j])
    ensures forall k :: j < k <= start ==> Before(pivot, a[k])
  {
    j := start;
    while Before(pivot, a[j])
      invariant bottom <= j <= start
      invariant forall k :: j < k <= start ==> Before(pivot, a[k])
      decreases j
    {
      j := j - 1;
    }
  }

  ghost predicate CoarseRange(s: seq<Edge>, l: int, m: int) {
    0 <= l <= l + m <= |s| && Coarse(s[l..l + m])
  }

  // [l, l+m) is cut into two non-empty parts in the right order.
  ghost predicate Parted(s: seq<Edge>, l: int, m: int, i: int, j: int) {
    0 <= l <= l + m <= |s| && 0 < i < m && i - 1 <= j <= i && Below(s[l..l + i], s[l + i..l + m])
  }

  // Once [l, l+m) is coarse, all of [lo, lo+n) is.
  ghost predicate Remains(s: seq<Edge>, lo: int, n: int, l: int, m: int) {
    0 <= lo <= l <= l + m <= lo + n <= |s| &&
    Completes(s[lo..l], multiset(s[l..l + m]), s[l + m..lo + n])
  }

  lemma AllRemains(s: seq<Edge>, lo: int, n: int)
    requires 0 <= lo <= lo + n <= |s|
    ensures Permutes(s, s, lo, n) && Remains(s, lo, n, lo, n)
  {
    forall t: seq<Edge> ensures s[lo..lo] + t + s[lo + n..lo + n] == t {}
  }

  lemma NothingRemains(s: seq<Edge>, lo: int, n: int, l: int, m: int)
    requires Remains(s, lo, n, l, m) && m <= 12
    ensures CoarseRange(s, lo, n)
  {
    assert s[lo..l] + s[l..l + m] + s[l + m..lo + n] == s[lo..lo + n];
  }

  // The partition loop's state: edges before i are not after the pivot, edges after j are not
  // before it, and the edge at top will stop the next upward scan.
  ghost predicate Parting(s: seq<Edge>, lo: int, n: int, i: int, j: int, top: int) {
    && 0 <= lo < i <= top < lo + n <= |s| && i <= j + 1 && j < lo + n
    && !Before(s[top], s[lo])
    && (forall k :: lo <= k < i ==> !Before(s[lo], s[k]))
    && (forall k :: j < k < lo + n ==> !Before(s[k], s[lo]))
  }

  lemma SwapParts(s: seq<Edge>, lo: int, n: int, i: int, j: int, top: int)
    requires Parting(s, lo, n, i, j, top) && i < j
    requires !Before(s[i], s[lo]) && !Before(s[lo], s[j])
    ensures Parting(Swapped(s, i, j), lo, n, i + 1, j - 1, j)
  {}

  lemma PartedIsBelow(s: seq<Edge>, lo: int, n: int, i: int, j: int, top: int)
    requires Parting(s, lo, n, i, j, top) && j <= i && !Before(s[i], s[lo])
    ensures Parted(s, lo, n, i - lo, j - lo)
  {
    forall x, y | x in s[lo..i] && y in s[i..lo + n] ensures !Before(y, x) {
      var u :| lo <= u < i && s[u] == x;
      var v :| i <= v < lo + n && s[v] == y;
    }
  }

  // The partition loop: everything before i may stand before everything from i on.
  method Partition(a: array<Edge>, lo: nat, n: nat) returns (i: nat, j: nat)
    requires lo + n <= a.Length && 12 < n
    modifies a
    ensures Permutes(old(a[..]), a[..], lo, n)
    ensures 0 < i < n && i - 1 <= j <= i && Parted(a[..], lo, n, i, j)
  {
    hide Permutes, Parted, Swapped, Below;
    ghost var top := MedianToFront(a, lo, n);
    i, j := lo + 1, lo + n - 1;
    while true
      invariant Permutes(old(a[..]), a[..], lo, n)
      invariant Parting(a[..], lo, n, i, j, top)
      decreases lo + n - i
    {
      i := ScanUp(a, a[lo], i, if j + 1 < lo + n then j + 1 else top);
      j := ScanDown(a, a[lo], j, i - 1);
      if i >= j {
        break;
      }
      ghost var s := a[..];
      SwapPermutes(s, lo, n, i, j);
      SwapParts(a[..], lo, n, i, j, top);
      Swap(a, i, j);
      PermutesTwice(old(a[..]), s, a[..], lo, n);
      top := j;
      i, j := i + 1, j - 1;
    }
    PartedIsBelow(a[..], lo, n, i, j, top);
    i, j := i - lo, j - lo;
  }

  // One round of the outer loop: r is the array at the start, s before the round, p after
  // partitioning [l, l+m), t after permuting its part [u, u+k).
  lemma CarryOver(r: seq<Edge>, s: seq<Edge>, p: seq<Edge>, t: seq<Edge>, lo: int, n: int, l: int, m: int, u: int, k: int)
    requires 0 <= lo <= l <= u <= u + k <= l + m <= lo + n <= |s|
    requires Permutes(r, s, lo, n) && Permutes(s, p, l, m) && Permutes(p, t, u, k)
    ensures Permutes(r, t, lo, n) && multiset(s[l..l + m]) == multiset(t[l..l + m])
    ensures s[lo..l] == t[lo..l] && s[l + m..lo + n] == t[l + m..lo + n]
  {
    Widen(p, t, l, m, u, k);
    PermutesTwice(s, p, t, l, m);
    Widen(s, t, lo, n, l, m);
    PermutesTwice(r, s, t, lo, n);
  }

  lemma StillParted(p: seq<Edge>, t: seq<Edge>, l: int, m: int, i: int, j: int, u: int, k: int)
    requires Parted(p, l, m, i, j) && Permutes(p, t, u, k)
    requires (u == l && k == j) || (u == l + i && k == m - i)
    ensures Parted(t, l, m, i, j)
  {
    if u == l {
      Widen(p, t, l, i, l, j);
      SameMembers(p[l..l + i], t[l..l + i]);
      assert p[l + i..l + m] == p[l + j..][i - j..m - j] && t[l + i..l + m] == t[l + j..][i - j..m - j];
    } else {
      SameMembers(p[l + i..l + m], t[l + i..l + m]);
      assert p[l..l + i] == p[..l + i][l..] && t[l..l + i] == t[..l + i][l..];
    }
  }

  lemma Slices(t: seq<Edge>, lo: int, n: int, l: int, m: int, i: int, j: int)
    requires 0 <= lo <= l <= l + m <= lo + n <= |t| && 0 <= j <= i <= m
    ensures t[l..l + j] + t[l + j..l + i] == t[l..l + i]
    ensures t[l..l + i] + t[l + i..l + m] == t[l..l + m]
    ensures t[lo..l] + t[l..l + i] == t[lo..l + i]
    ensures t[l + j..l + i] + t[l + i..l + m] + t[l + m..lo + n] == t[l + j..lo + n]
  {}

  lemma LeftSorted(r: seq<Edge>, s: seq<Edge>, p: seq<Edge>, t: seq<Edge>, lo: int, n: int, l: int, m: int, i: int, j: int)
    requires Remains(s, lo, n, l, m) && Permutes(s, p, l, m) && Parted(p, l, m, i, j)
    requires Permutes(r, s, lo, n)
    requires Permutes(p, t, l, j) && CoarseRange(t, l, j)
    ensures Permutes(r, t, lo, n) && Remains(t, lo, n, l + i, m - i)
  {
    hide Permutes, Completes, Coarse, Below;
    StillParted(p, t, l, m, i, j, l, j);
    CarryOver(r, s, p, t, lo, n, l, m, l, j);
    Slices(t, lo, n, l, m, i, j);
    RightRemains(t[lo..l], t[l..l + j], t[l + j..l + i], t[l + i..l + m], t[l + m..lo + n]);
  }

  lemma RightSorted(r: seq<Edge>, s: seq<Edge>, p: seq<Edge>, t: seq<Edge>, lo: int, n: int, l: int, m: int, i: int, j: int)
    requires Remains(s, lo, n, l, m) && Permutes(s, p, l, m) && Parted(p, l, m, i, j)
    requires Permutes(r, s, lo, n)
    requires Permutes(p, t, l + i, m - i) && CoarseRange(t, l + i, m - i)
    ensures Permutes(r, t, lo, n) && Remains(t, lo, n, l, j)
  {
    hide Permutes, Completes, Coarse, Below;
    StillParted(p, t, l, m, i, j, l + i, m - i);
    CarryOver(r, s, p, t, lo, n, l, m, l + i, m - i);
    Slices(t, lo, n, l, m, i, j);
    LeftRemains(t[lo..l], t[l..l + j], t[l + j..l + i], t[l + i..l + m], t[l + m..lo + n]);
  }

  lemma OneDeeper(d: nat, part: nat, n: nat)
    requires 12 < n && 2 * part <= n
    requires part == 0 ==> d == 0
    requires 0 < part ==> Numbers.Pow2(d) <= part
    ensures Numbers.Pow2(d + 1) <= n
  {}

  // One round of QuickSort's loop: partition [l, l+m), sort the shorter part by recursion and
  // return the longer one as the range that remains.
  method Round(a: array<Edge>, ghost r: seq<Edge>, lo: nat, n: nat, l: nat, m: nat)
    returns (l': nat, m': nat, ghost depth: nat)
    requires lo <= l && l + m <= lo + n <= a.Length == |r| && 12 < m
    requires Permutes(r, a[..], lo, n) && Remains(a[..], lo, n, l, m)
    modifies a
    ensures lo <= l' && l' + m' <= lo + n && m' < m
    ensures Permutes(r, a[..], lo, n) && Remains(a[..], lo, n, l', m')
    ensures Numbers.Pow2(depth) <= n
    decreases m, 0
  {
    hide Permutes, Remains, Parted, CoarseRange, Numbers.Pow2;
    ghost var s := a[..];
    var i, j := Partition(a, l, m);
    ghost var p := a[..];
    if j < m - i {
      depth := QuickSort(a, l, j);
      OneDeeper(depth, j, n);
      LeftSorted(r, s, p, a[..], lo, n, l, m, i, j);
      l', m' := l + i, m - i;
    } else {
      depth := QuickSort(a, l + i, m - i);
      OneDeeper(depth, m - i, n);
      RightSorted(r, s, p, a[..], lo, n, l, m, i, j);
      l', m' := l, j;
    }
    depth := depth + 1;
  }

  // Recurses on the shorter part and iterates on the longer one, so at most log2(n) calls
  // are ever nested. depth counts them.
  method QuickSort(a: array<Edge>, lo: nat, n: nat) returns (ghost depth: nat)
    requires lo + n <= a.Length
    modifies a
    ensures Permutes(old(a[..]), a[..], lo, n) && CoarseRange(a[..], lo, n)
    ensures n <= 12 ==> depth == 0
    ensures 0 < n ==> Numbers.Pow2(depth) <= n
    decreases n, 1
  {
    assert Numbers.Pow2(0) == 1;
    hide Permutes, Remains, CoarseRange, Numbers.Pow2;
    ghost var r := a[..];
    var l, m := lo, n;
    depth := 0;
    AllRemains(r, lo, n);
    while 12 < m
      invariant lo <= l && 0 <= m && l + m <= lo + n
      invariant Permutes(r, a[..], lo, n) && Remains(a[..], lo, n, l, m)
      invariant n <= 12 ==> depth == 0
      invariant 0 < n ==> Numbers.Pow2(depth) <= n
      decreases m
    {
      ghost var d;
      l, m, d := Round(a, r, lo, n, l, m);
      depth := if depth < d then d else depth;
    }
    NothingRemains(a[..], lo, n, l, m);
  }

  // The edge at i moved down to j, those in between moved up by one.
  ghost function Inserted(s: seq<Edge>, i: int, j: int): seq<Edge>
    requires 0 <= j <= i < |s|
  {
    s[..j] + [s[i]] + s[j..i] + s[i + 1..]
  }

  lemma InsertKeepsSorted(p: seq<Edge>, x: Edge, j: int)
    requires 0 <= j <= |p| && Sorted(p)
    requires 0 < j ==> !Before(x, p[j - 1])
    requires j < |p| ==> Before(x, p[j])
    ensures Sorted(p[..j] + [x] + p[j..])
  {
    var t := p[..j] + [x] + p[j..];
    forall u, v | 0 <= u < v < |t| ensures !Before(t[v], t[u]) {
      if u == j {
        assert t[v] == p[v - 1];
      } else if v == j {
        assert t[u] == p[u];
      }
    }
  }

  lemma Rotate(x: seq<Edge>, y: seq<Edge>, e: Edge, z: seq<Edge>, post: seq<Edge>)
    ensures var n := |x| + |y| + 1 + |z|;
            Permutes(x + y + [e] + z + post, x + [e] + y + z + post, 0, n)
  {
    var n := |x| + |y| + 1 + |z|;
    var s, t := x + y + [e] + z + post, x + [e] + y + z + post;
    assert s[0..n] == x + y + [e] + z && t[0..n] == x + [e] + y + z;
    assert s[n..] == post && t[n..] == post;
  }

  lemma InsertPermutes(s: seq<Edge>, n: int, i: int, j: int)
    requires 0 <= j <= i < n <= |s|
    ensures Permutes(s, Inserted(s, i, j), 0, n)
  {
    hide Permutes;
    Rotate(s[..j], s[j..i], s[i], s[i + 1..n], s[n..]);
    assert s == s[..j] + s[j..i] + [s[i]] + s[i + 1..n] + s[n..];
    assert s[i + 1..] == s[i + 1..n] + s[n..];
    assert Inserted(s, i, j) == s[..j] + [s[i]] + s[j..i] + s[i + 1..n] + s[n..];
  }

  lemma InsertSorts(s: seq<Edge>, i: int, j: int)
    requires 0 <= j <= i < |s| && Sorted(s[..i])
    requires 0 < j ==> !Before(s[i], s[j - 1])
    requires j < i ==> Before(s[i], s[j])
    ensures Sorted(Inserted(s, i, j)[..i + 1])
  {
    InsertKeepsSorted(s[..i], s[i], j);
    assert s[..i][..j] == s[..j] && s[..i][j..] == s[j..i];
    assert Inserted(s, i, j)[..i + 1] == s[..j] + [s[i]] + s[j..i];
  }

  // The inner loop: moves the edge at i down past every edge it is before.
  method Insert(a: array<Edge>, i: nat) returns (j: nat)
    requires i < a.Length
    modifies a
    ensures j <= i && a[..] == Inserted(old(a[..]), i, j)
    ensures 0 < j ==> !Before(old(a[i]), old(a[j - 1]))
    ensures j < i ==> Before(old(a[i]), old(a[j]))
  {
    var t := a[i];
    j := i;
    while 0 < j && Before(t, a[j - 1])
      invariant 0 <= j <= i
      invariant forall k :: 0 <= k < j || i < k < a.Length ==> a[k] == old(a[k])
      invariant forall k :: j < k <= i ==> a[k] == old(a[k - 1])
      invariant j == i ==> a[i] == t
      invariant j < i ==> Before(t, old(a[j]))
    {
      a[j] := a[j - 1];
      j := j - 1;
    }
    if i != j {
      a[j] := t;
    }
  }

  // In plain terms: the upper ends come in ascending order.
  lemma SortedAscends(s: seq<Edge>)
    ensures Sorted(s) <==> forall u, v :: 0 <= u < v < |s| ==> s[u].y0 <= s[v].y0
  {}

  lemma PermutesFront(s: seq<Edge>, t: seq<Edge>, n: int)
    requires Permutes(s, t, 0, n)
    ensures 0 <= n <= |s| == |t| && multiset(t[..n]) == multiset(s[..n]) && t[n..] == s[n..]
  {
    assert s[0..n] == s[..n] && t[0..n] == t[..n];
  }

  method InsertionSort(a: array<Edge>, n: nat)
    requires n <= a.Length
    modifies a
    ensures Permutes(old(a[..]), a[..], 0, n)
    ensures Sorted(a[..n])
    ensures forall u, v :: 0 <= u < v < n ==> a[u].y0 <= a[v].y0
  {
    assert n == 0 || Sorted(a[..][..1]);
    assert n == 0 ==> Sorted(a[..n]);
    hide Permutes, Sorted, Inserted, Before;
    var i := 1;
    while i < n
      invariant 1 <= i && (i <= n || n == 0)
      invariant Permutes(old(a[..]), a[..], 0, n)
      invariant n == 0 || Sorted(a[..][..i])
    {
      ghost var s := a[..];
      var j := Insert(a, i);
      InsertPermutes(s, n, i, j);
      InsertSorts(s, i, j);
      PermutesTwice(old(a[..]), s, a[..], 0, n);
      i := i + 1;
    }
    assert n == 0 || a[..n] == a[..][..n];
    SortedAscends(a[..n]);
    assert forall u :: 0 <= u < n ==> a[..n][u] == a[u];
  }

  // Whatever quicksort leaves unsorted, the insertion pass puts right.
  method SortEdges(a: array<Edge>, n: nat)
    requires n <= a.Length
    modifies a
    ensures forall u, v :: 0 <= u < v < n ==> a[u].y0 <= a[v].y0
    ensures multiset(a[..n]) == multiset(old(a[..n])) && a[n..] == old(a[n..])
  {
    hide Permutes;
    ghost var s := a[..];
    ghost var depth := QuickSort(a, 0, n);
    ghost var t := a[..];
    InsertionSort(a, n);
    PermutesTwice(s, t, a[..], 0, n);
    PermutesFront(s, a[..], n);
    assert a[..][..n] == a[..n] && a[..][n..] == a[n..] && s[..n] == old(a[..n]) && s[n..] == old(a[n..]);
  }
}
