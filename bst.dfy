/** The binary-search-tree side of RedBlackTree on shapes: the values of a tree in order, the
    descent of findNodeWithData, the leaf placement of insert and the unlinking of remove.

    Values are ints (RedBlackTree.java's Comparable type parameter with its compareTo); D holds the
    value of every slot. */
module Search {
  import opened Shapes

  datatype Option<T> = None | Some(value: T)

  /** The values of the given slots, in the same order. */
  function Values(xs: seq<int>, D: seq<int>): seq<int> {
    seq(|xs|, i requires 0 <= i < |xs| => Get(D, xs[i]))
  }

  /** The values of t in in-order. */
  function Keys(t: Shape, D: seq<int>): seq<int> {
    Values(InOrder(t), D)
  }

  /** Strictly increasing: the search-tree order with no duplicate values. */
  predicate Sorted(K: seq<int>) {
    forall i, j :: 0 <= i < j < |K| ==> K[i] < K[j]
  }

  /** Every slot of t has a value. */
  ghost predicate Stored(t: Shape, D: seq<int>) {
    forall x :: x in Ids(t) ==> x < |D|
  }

  /** The in-order position of x in t: the slots before its subtree and its left subtree. */
  function Rank(t: Shape, x: int): nat {
    var s := Sub(t, x);
    |Before(t, x)| + (if s.Fork? then |InOrder(s.left)| else 0)
  }

  // ---------------------------------------------------------------------------
  // Keys and order

  lemma KeysFork(a: Shape, x: nat, b: Shape, D: seq<int>)
    ensures Keys(Fork(a, x, b), D) == Keys(a, D) + [Get(D, x)] + Keys(b, D)
  {
    assert InOrder(Fork(a, x, b)) == InOrder(a) + [x] + InOrder(b);
  }

  /** Values depend only on the values of the slots listed. */
  lemma KeysFrame(t: Shape, D: seq<int>, D': seq<int>)
    requires Distinct(t) && forall x :: x in Ids(t) ==> Get(D, x) == Get(D', x)
    ensures Keys(t, D) == Keys(t, D')
  {
    InOrderIds(t);
  }

  /** A sequence around a middle value is sorted iff both sides are sorted and lie on the
      correct side of the middle. */
  lemma SortedSplit(A: seq<int>, m: int, B: seq<int>)
    ensures Sorted(A + [m] + B) <==>
      Sorted(A) && Sorted(B) && (forall w :: w in A ==> w < m) && (forall w :: w in B ==> m < w)
  {
    var K := A + [m] + B;
    if Sorted(K) {
      forall i, j | 0 <= i < j < |A| ensures A[i] < A[j] {
        assert A[i] == K[i] && A[j] == K[j];
      }
      forall i, j | 0 <= i < j < |B| ensures B[i] < B[j] {
        assert B[i] == K[|A| + 1 + i] && B[j] == K[|A| + 1 + j];
      }
      forall w | w in A ensures w < m {
        var i :| 0 <= i < |A| && A[i] == w;
        assert K[i] == w && K[|A|] == m;
      }
      forall w | w in B ensures m < w {
        var i :| 0 <= i < |B| && B[i] == w;
        assert K[|A| + 1 + i] == w && K[|A|] == m;
      }
    }
    if Sorted(A) && Sorted(B) && (forall w :: w in A ==> w < m) && (forall w :: w in B ==> m < w) {
      forall i, j | 0 <= i < j < |K| ensures K[i] < K[j] {
        if j < |A| {
        } else if i < |A| {
          assert K[i] in A;
          if j > |A| {
            assert K[j] == B[j - |A| - 1];
            assert K[j] in B;
          }
        } else if i == |A| {
          assert K[j] == B[j - |A| - 1];
          assert K[j] in B;
        } else {
          assert K[i] == B[i - |A| - 1] && K[j] == B[j - |A| - 1];
        }
      }
    }
  }

  /** The slots of a tree that all have values keep them when a value is appended. */
  lemma StoredFork(a: Shape, x: nat, b: Shape, D: seq<int>, v: int)
    requires Stored(Fork(a, x, b), D)
    ensures Stored(a, D) && Stored(b, D) && x < |D|
    ensures forall y :: y in Ids(a) ==> Get(D, y) == Get(D + [v], y)
    ensures forall y :: y in Ids(b) ==> Get(D, y) == Get(D + [v], y)
  {
    assert forall y :: y in Ids(a) || y in Ids(b) ==> y in Ids(Fork(a, x, b));
  }

  /** Dropping one element of a sorted sequence keeps it sorted and removes exactly that value. */
  lemma DropSorted(K: seq<int>, i: nat)
    requires i < |K| && Sorted(K)
    ensures Sorted(K[..i] + K[i + 1..])
    ensures multiset(K[..i] + K[i + 1..]) == multiset(K) - multiset{K[i]}
  {
    var K' := K[..i] + K[i + 1..];
    forall p, q | 0 <= p < q < |K'| ensures K'[p] < K'[q] {
      var p' := if p < i then p else p + 1;
      var q' := if q < i then q else q + 1;
      assert K'[p] == K[p'] && K'[q] == K[q'];
    }
    assert K == K[..i] + [K[i]] + K[i + 1..];
  }

  /** In a strictly increasing sequence, the dropped value occurs nowhere else. */
  lemma DropAbsent(K: seq<int>, i: nat)
    requires i < |K| && Sorted(K)
    ensures K[i] !in K[..i] + K[i + 1..]
  {
    var K' := K[..i] + K[i + 1..];
    forall j | 0 <= j < |K'| ensures K'[j] != K[i] {
      if j < i {
        assert K'[j] == K[j];
      } else {
        assert K'[j] == K[j + 1];
      }
    }
  }

  /** Where v belongs in the sorted sequence K: the number of its values below v. */
  function Below(K: seq<int>, v: int): (k: nat)
    requires Sorted(K)
    ensures k <= |K|
    ensures forall i :: 0 <= i < k ==> K[i] < v
    ensures forall i :: k <= i < |K| ==> v <= K[i]
  {
    if |K| == 0 || v <= K[0] then 0 else 1 + Below(K[1..], v)
  }

  /** A strictly increasing sequence is determined by its multiset of values. */
  lemma {:induction false} SortedUnique(A: seq<int>, B: seq<int>)
    requires Sorted(A) && Sorted(B) && multiset(A) == multiset(B)
    ensures A == B
  {
    if A == [] {
      assert |multiset(B)| == 0;
    } else {
      SortedHeads(A, B);
      MultisetTails(A, B);
      SortedTail(A);
      SortedTail(B);
      SortedUnique(A[1..], B[1..]);
      assert A == [A[0]] + A[1..] && B == [B[0]] + B[1..];
    }
  }

  /** Two sorted sequences with the same values start with the same, smallest, value. */
  lemma SortedHeads(A: seq<int>, B: seq<int>)
    requires Sorted(A) && Sorted(B) && multiset(A) == multiset(B) && A != []
    ensures B != [] && A[0] == B[0]
  {
    assert A[0] in multiset(B);
    var i :| 0 <= i < |B| && B[i] == A[0];
    assert B[0] in multiset(A);
    var j :| 0 <= j < |A| && A[j] == B[0];
  }

  /** Dropping the same first value from sequences with the same values leaves the same values. */
  lemma MultisetTails(A: seq<int>, B: seq<int>)
    requires A != [] && B != [] && A[0] == B[0] && multiset(A) == multiset(B)
    ensures multiset(A[1..]) == multiset(B[1..])
  {
    var x, A', B' := A[0], A[1..], B[1..];
    assert A == [x] + A' && B == [x] + B';
    assert multiset(A) == multiset([x]) + multiset(A');
    assert multiset(B) == multiset([x]) + multiset(B');
    assert multiset(A') == multiset(A) - multiset([x]);
  }

  lemma SortedTail(A: seq<int>)
    requires Sorted(A) && A != []
    ensures Sorted(A[1..])
  {
    forall p, q | 0 <= p < q < |A| - 1 ensures A[1..][p] < A[1..][q] {
      assert A[1..][p] == A[p + 1] && A[1..][q] == A[q + 1];
    }
  }

  /** Putting v, absent from the sorted K, at its place Below(K, v) keeps K sorted and adds v. */
  lemma InsertAtBelow(K: seq<int>, v: int)
    requires Sorted(K) && v !in K
    ensures var k := Below(K, v);
      Sorted(K[..k] + [v] + K[k..]) && multiset(K[..k] + [v] + K[k..]) == multiset(K) + multiset{v}
  {
    var k := Below(K, v);
    var C := K[..k] + [v] + K[k..];
    forall p, q | 0 <= p < q < |C| ensures C[p] < C[q] {
      if q < k || p > k {
      } else if p == k {
        assert K[q - 1] != v;
      } else if q > k {
        assert K[q - 1] != v;
      }
    }
    assert K == K[..k] + K[k..];
  }

  /** A value v of the sorted K sits exactly at its place Below(K, v). */
  lemma FoundAtBelow(K: seq<int>, v: int)
    requires Sorted(K) && v in K
    ensures Below(K, v) < |K| && K[Below(K, v)] == v
  {
    var i :| 0 <= i < |K| && K[i] == v;
    assert Below(K, v) <= i;
  }

  // ---------------------------------------------------------------------------
  // findNodeWithData

  /** The descent of findNodeWithData: the slot holding v, NIL when the descent falls off. */
  function Find(t: Shape, D: seq<int>, v: int): (r: int)
    ensures r == NIL || (r in Ids(t) && Get(D, r) == v)
  {
    match t
    case Nil => NIL
    case Fork(a, x, b) =>
      if v == Get(D, x) then x else if v < Get(D, x) then Find(a, D, v) else Find(b, D, v)
  }

  /** In a sorted tree the descent finds v exactly when v is one of the tree's values, and then
      stops at a slot of the tree holding v. */
  lemma {:induction false} FindCorrect(t: Shape, D: seq<int>, v: int)
    requires Sorted(Keys(t, D))
    ensures Find(t, D, v) == NIL <==> v !in Keys(t, D)
    ensures Find(t, D, v) != NIL ==> Find(t, D, v) in Ids(t) && Get(D, Find(t, D, v)) == v
  {
    match t
    case Nil =>
    case Fork(a, x, b) =>
      KeysFork(a, x, b, D);
      SortedSplit(Keys(a, D), Get(D, x), Keys(b, D));
      FindCorrect(a, D, v);
      FindCorrect(b, D, v);
  }

  // ---------------------------------------------------------------------------
  // insert

  /** The descent of insert: the new leaf n goes where the descent falls off; None when the
      descent meets v (the Java code throws IllegalArgumentException there). */
  function Place(t: Shape, D: seq<int>, v: int, n: nat): (r: Option<Shape>)
    ensures r.None? <==> Find(t, D, v) != NIL
    ensures r.Some? ==> Ids(r.value) == Ids(t) + {n}
  {
    match t
    case Nil => Some(Fork(Nil, n, Nil))
    case Fork(a, x, b) =>
      if v == Get(D, x) then None
      else if v < Get(D, x) then
        match Place(a, D, v, n)
        case None => None
        case Some(a') => Some(Fork(a', x, b))
      else
        match Place(b, D, v, n)
        case None => None
        case Some(b') => Some(Fork(a, x, b'))
  }

  /** t' is t with one more leaf, the new slot |D| holding v, in search order: the values are
      the old ones plus v, still sorted. */
  ghost predicate Grown(t: Shape, D: seq<int>, v: int, t': Shape) {
    && Distinct(t') && Ids(t') == Ids(t) + {|D|}
    && Sub(t', |D|) == Fork(Nil, |D|, Nil)
    && Sorted(Keys(t', D + [v]))
    && multiset(Keys(t', D + [v])) == multiset(Keys(t, D)) + multiset{v}
  }

  /** Placing v as the new slot |D| fails exactly on a duplicate, and otherwise grows the tree
      by one leaf in search order. */
  lemma {:induction false} PlaceFacts(t: Shape, D: seq<int>, v: int)
    requires Distinct(t) && Stored(t, D) && Sorted(Keys(t, D))
    ensures var r := Place(t, D, v, |D|);
      (r.None? <==> v in Keys(t, D)) && (r.Some? ==> Grown(t, D, v, r.value))
  {
    var n, D' := |D|, D + [v];
    match t
    case Nil =>
      assert InOrder(Fork(Nil, n, Nil)) == [n];
      assert Keys(Fork(Nil, n, Nil), D') == [v];
    case Fork(a, x, b) =>
      KeysFork(a, x, b, D);
      SortedSplit(Keys(a, D), Get(D, x), Keys(b, D));
      StoredFork(a, x, b, D, v);
      if v < Get(D, x) {
        PlaceFacts(a, D, v);
        if Place(a, D, v, n).Some? {
          GrowLeft(a, x, b, D, v, Place(a, D, v, n).value);
        }
      } else if v > Get(D, x) {
        PlaceFacts(b, D, v);
        if Place(b, D, v, n).Some? {
          GrowRight(a, x, b, D, v, Place(b, D, v, n).value);
        }
      }
  }

  lemma GrowLeft(a: Shape, x: nat, b: Shape, D: seq<int>, v: int, a': Shape)
    requires Distinct(Fork(a, x, b)) && Stored(Fork(a, x, b), D) && Sorted(Keys(Fork(a, x, b), D))
    requires v < Get(D, x) && Grown(a, D, v, a')
    ensures Grown(Fork(a, x, b), D, v, Fork(a', x, b))
  {
    StoredFork(a, x, b, D, v);
    GrowShapeLeft(a, x, b, D, a');
    GrowLeftKeys(a, x, b, D, v, a');
  }

  lemma GrowRight(a: Shape, x: nat, b: Shape, D: seq<int>, v: int, b': Shape)
    requires Distinct(Fork(a, x, b)) && Stored(Fork(a, x, b), D) && Sorted(Keys(Fork(a, x, b), D))
    requires v > Get(D, x) && Grown(b, D, v, b')
    ensures Grown(Fork(a, x, b), D, v, Fork(a, x, b'))
  {
    StoredFork(a, x, b, D, v);
    GrowShapeRight(a, x, b, D, b');
    GrowRightKeys(a, x, b, D, v, b');
  }

  /** The left side grows by the new leaf |D|: the slots stay distinct. */
  lemma GrowShapeLeft(a: Shape, x: nat, b: Shape, D: seq<int>, a': Shape)
    requires Distinct(Fork(a, x, b)) && Stored(Fork(a, x, b), D) && Distinct(a')
    requires Ids(a') == Ids(a) + {|D|} && Sub(a', |D|) == Fork(Nil, |D|, Nil)
    ensures Distinct(Fork(a', x, b)) && Ids(Fork(a', x, b)) == Ids(Fork(a, x, b)) + {|D|}
    ensures Sub(Fork(a', x, b), |D|) == Fork(Nil, |D|, Nil)
  {
    StoredFork(a, x, b, D, 0);
    assert |D| !in Ids(b);
    assert Ids(a') !! Ids(b);
  }

  /** The right side grows by the new leaf |D|: the slots stay distinct. */
  lemma GrowShapeRight(a: Shape, x: nat, b: Shape, D: seq<int>, b': Shape)
    requires Distinct(Fork(a, x, b)) && Stored(Fork(a, x, b), D) && Distinct(b')
    requires Ids(b') == Ids(b) + {|D|} && Sub(b', |D|) == Fork(Nil, |D|, Nil)
    ensures Distinct(Fork(a, x, b')) && Ids(Fork(a, x, b')) == Ids(Fork(a, x, b)) + {|D|}
    ensures Sub(Fork(a, x, b'), |D|) == Fork(Nil, |D|, Nil)
  {
    StoredFork(a, x, b, D, 0);
    assert |D| !in Ids(a);
    assert Ids(a) !! Ids(b');
  }

  lemma GrowLeftKeys(a: Shape, x: nat, b: Shape, D: seq<int>, v: int, a': Shape)
    requires Distinct(Fork(a, x, b)) && Stored(Fork(a, x, b), D) && Sorted(Keys(Fork(a, x, b), D))
    requires v < Get(D, x) && Sorted(Keys(a', D + [v]))
    requires multiset(Keys(a', D + [v])) == multiset(Keys(a, D)) + multiset{v}
    ensures Sorted(Keys(Fork(a', x, b), D + [v]))
    ensures multiset(Keys(Fork(a', x, b), D + [v])) == multiset(Keys(Fork(a, x, b), D)) + multiset{v}
  {
    var D' := D + [v];
    KeysFork(a, x, b, D);
    SortedSplit(Keys(a, D), Get(D, x), Keys(b, D));
    StoredFork(a, x, b, D, v);
    KeysFrame(b, D, D');
    assert Get(D', x) == Get(D, x);
    KeysFork(a', x, b, D');
    forall w | w in Keys(a', D') ensures w < Get(D', x) {
      assert w in multiset(Keys(a', D'));
      assert w in multiset(Keys(a, D)) + multiset{v};
      assert w in Keys(a, D) || w == v;
    }
    SortedSplit(Keys(a', D'), Get(D', x), Keys(b, D'));
  }

  lemma GrowRightKeys(a: Shape, x: nat, b: Shape, D: seq<int>, v: int, b': Shape)
    requires Distinct(Fork(a, x, b)) && Stored(Fork(a, x, b), D) && Sorted(Keys(Fork(a, x, b), D))
    requires v > Get(D, x) && Sorted(Keys(b', D + [v]))
    requires multiset(Keys(b', D + [v])) == multiset(Keys(b, D)) + multiset{v}
    ensures Sorted(Keys(Fork(a, x, b'), D + [v]))
    ensures multiset(Keys(Fork(a, x, b'), D + [v])) == multiset(Keys(Fork(a, x, b), D)) + multiset{v}
  {
    var D' := D + [v];
    KeysFork(a, x, b, D);
    SortedSplit(Keys(a, D), Get(D, x), Keys(b, D));
    StoredFork(a, x, b, D, v);
    KeysFrame(a, D, D');
    assert Get(D', x) == Get(D, x);
    KeysFork(a, x, b', D');
    forall w | w in Keys(b', D') ensures Get(D', x) < w {
      assert w in multiset(Keys(b', D'));
      assert w in multiset(Keys(b, D)) + multiset{v};
      assert w in Keys(b, D) || w == v;
    }
    SortedSplit(Keys(a, D'), Get(D', x), Keys(b', D'));
  }

  /** Where the walk of insert stands at slot cur: the placement in the whole tree is the
      placement in the subtree at cur, put back in place of that subtree. */
  function Graft(t: Shape, cur: int, r: Option<Shape>): Option<Shape> {
    match r
    case None => None
    case Some(s) => Some(Replace(t, cur, s))
  }

  /** One step of the insert walk from cur to its child c, on the side the comparison picks. */
  lemma PlaceStep(t: Shape, D: seq<int>, v: int, n: nat, cur: int)
    requires Distinct(t) && cur in Ids(t) && v != Get(D, cur)
    ensures var c := if v < Get(D, cur) then LeftOf(t, cur) else RightOf(t, cur);
      c != NIL ==>
        Graft(t, cur, Place(Sub(t, cur), D, v, n)) == Graft(t, c, Place(Sub(t, c), D, v, n))
  {
    SubFacts(t, cur);
    ChildSub(t, cur);
    match Sub(t, cur)
    case Fork(a, x, b) =>
      if v < Get(D, cur) && a.Fork? {
        assert a.id in Ids(Sub(t, cur));
        match Place(a, D, v, n)
        case None =>
        case Some(a') =>
          assert Fork(a', x, b) == Replace(Sub(t, cur), a.id, a');
          ReplaceNested(t, cur, a.id, a');
      } else if v > Get(D, cur) && b.Fork? {
        assert b.id in Ids(Sub(t, cur));
        match Place(b, D, v, n)
        case None =>
        case Some(b') =>
          assert Fork(a, x, b') == Replace(Sub(t, cur), b.id, b');
          ReplaceNested(t, cur, b.id, b');
      }
  }

  // ---------------------------------------------------------------------------
  // remove

  /** The right subtree of t; Nil for Nil. */
  function RightTree(t: Shape): Shape {
    if t.Fork? then t.right else Nil
  }

  /** x has two children: remove copies the successor's value into x. */
  predicate TwoChildren(t: Shape, x: int) {
    var S := Sub(t, x);
    S.Fork? && S.left.Fork? && S.right.Fork?
  }

  /** c is the whole of what hangs below x: one subtree is c, the other is empty. */
  predicate OnlyChild(t: Shape, x: int, c: Shape) {
    var S := Sub(t, x);
    S.Fork? && ((c == S.left && S.right.Nil?) || (c == S.right && S.left.Nil?))
  }

  /** The in-order successor of x when x has two children: the leftmost slot of its right
      subtree (findMinOfRightSubtree). */
  function Successor(t: Shape, x: int): int {
    Leftmost(RightTree(Sub(t, x)))
  }

  /** The tree and values after remove unlinks slot x: with two children the successor's value
      is copied into x and the successor is replaced by its right subtree; otherwise x is
      replaced by its right subtree, its left subtree, or nothing, in that order of preference. */
  function Unlink(t: Shape, D: seq<int>, x: int): (Shape, seq<int>) {
    var S := Sub(t, x);
    if TwoChildren(t, x) then
      var s := Successor(t, x);
      (Replace(t, s, RightTree(Sub(t, s))), Put(D, x, Get(D, s)))
    else if S.Fork? && S.right.Fork? then (Replace(t, x, S.right), D)
    else if S.Fork? && S.left.Fork? then (Replace(t, x, S.left), D)
    else (Replace(t, x, Nil), D)
  }

  /** Dropping y, the only thing between L and R, from B + L + [y] + R + A. */
  lemma DropSingle(xs: seq<int>, B: seq<int>, L: seq<int>, y: int, R: seq<int>, A: seq<int>,
                   C: seq<int>, ys: seq<int>)
    requires xs == B + (L + [y] + R) + A && ys == B + C + A
    requires (C == L && R == []) || (C == R && L == [])
    ensures |B| + |L| < |xs| && xs[|B| + |L|] == y
    ensures ys == xs[..|B| + |L|] + xs[|B| + |L| + 1..]
  {
    var i := |B| + |L|;
    assert xs[..i] == B + L;
    assert xs[i + 1..] == R + A;
  }

  /** In B + L + [y] + R + A with R non-empty, the first element of R follows y. */
  lemma NextAfter(xs: seq<int>, B: seq<int>, L: seq<int>, y: int, R: seq<int>, A: seq<int>)
    requires xs == B + (L + [y] + R) + A && |R| > 0
    ensures |B| + |L| + 1 < |xs| && xs[|B| + |L|] == y && xs[|B| + |L| + 1] == R[0]
  {
  }

  /** Dropping y from B + ([y] + R) + A, where y is known to sit at position k of a sequence
      without repetitions. */
  lemma DropAt(xs: seq<int>, B: seq<int>, M: seq<int>, A: seq<int>, y: int, R: seq<int>,
               ys: seq<int>, k: nat)
    requires xs == B + M + A && M == [y] + R && ys == B + R + A
    requires Unique(xs) && k < |xs| && xs[k] == y
    ensures ys == xs[..k] + xs[k + 1..]
  {
    assert xs[|B|] == y;
    assert xs[..|B|] == B;
    assert xs[|B| + 1..] == R + A;
  }

  /** Values after dropping the slot at position i. */
  lemma ValuesDrop(xs: seq<int>, D: seq<int>, i: nat)
    requires i < |xs|
    ensures Values(xs[..i] + xs[i + 1..], D) == Values(xs, D)[..i] + Values(xs, D)[i + 1..]
  {
  }

  /** The value of the slot s right after x is copied into x, and s is dropped: the values
      lose exactly the one at x's position. */
  lemma ValuesCopyDrop(xs: seq<int>, ys: seq<int>, D: seq<int>, i: nat, x: int, s: int)
    requires i + 1 < |xs| && Unique(xs) && 0 <= x < |D| && xs[i] == x && xs[i + 1] == s
    requires ys == xs[..i + 1] + xs[i + 2..]
    ensures Values(ys, Put(D, x, Get(D, s))) == Values(xs, D)[..i] + Values(xs, D)[i + 1..]
  {
    var D' := Put(D, x, Get(D, s));
    var K, K' := Values(xs, D), Values(ys, D');
    forall j | 0 <= j < |K'| ensures K'[j] == (K[..i] + K[i + 1..])[j] {
      if j < i {
        assert ys[j] == xs[j] && xs[j] != x;
      } else if j == i {
        assert ys[j] == x;
      } else {
        assert ys[j] == xs[j + 1] && xs[j + 1] != x;
      }
    }
  }

  /** Replacing x by its only subtree drops x, at x's in-order position, from in-order. */
  lemma SingleOrder(t: Shape, x: int, c: Shape)
    requires Distinct(t) && x in Ids(t) && OnlyChild(t, x, c)
    ensures Rank(t, x) < |InOrder(t)| && InOrder(t)[Rank(t, x)] == x
    ensures InOrder(Replace(t, x, c)) == InOrder(t)[..Rank(t, x)] + InOrder(t)[Rank(t, x) + 1..]
  {
    SubFacts(t, x);
    var S := Sub(t, x);
    SplitInOrder(t, x);
    ReplaceInOrder(t, x, c);
    assert InOrder(S) == InOrder(S.left) + [x] + InOrder(S.right);
    DropSingle(InOrder(t), Before(t, x), InOrder(S.left), x, InOrder(S.right), After(t, x),
               InOrder(c), InOrder(Replace(t, x, c)));
  }

  /** Removing a slot with at most one child: the values lose the one at x's position. */
  lemma UnlinkSingle(t: Shape, D: seq<int>, x: int, c: Shape)
    requires Distinct(t) && x in Ids(t) && OnlyChild(t, x, c)
    ensures Distinct(Replace(t, x, c)) && Ids(Replace(t, x, c)) == Ids(t) - {x}
    ensures Rank(t, x) < |InOrder(t)| && InOrder(t)[Rank(t, x)] == x
    ensures Keys(Replace(t, x, c), D) == Keys(t, D)[..Rank(t, x)] + Keys(t, D)[Rank(t, x) + 1..]
  {
    SingleIds(t, x, c);
    var i, xs, ys := Rank(t, x), InOrder(t), InOrder(Replace(t, x, c));
    SingleOrder(t, x, c);
    ValuesDrop(xs, D, i);
    assert Keys(Replace(t, x, c), D) == Values(ys, D) == Values(xs[..i] + xs[i + 1..], D);
  }

  /** Replacing x by its only subtree drops exactly x from the slots. */
  lemma SingleIds(t: Shape, x: int, c: Shape)
    requires Distinct(t) && x in Ids(t) && OnlyChild(t, x, c)
    ensures Distinct(Replace(t, x, c)) && Ids(Replace(t, x, c)) == Ids(t) - {x}
  {
    SubFacts(t, x);
    ReplaceIds(t, x, c);
    ReplaceShrink(t, x, c);
  }

  /** The successor lies in x's right subtree and has no left child. */
  lemma SuccessorSub(t: Shape, x: int)
    requires Distinct(t) && x in Ids(t) && TwoChildren(t, x)
    ensures var s := Successor(t, x);
      && s in Ids(t) && s != x
      && Sub(t, s).Fork? && Sub(t, s).id == s && Sub(t, s).left.Nil?
      && InOrder(Sub(t, x).right)[0] == s
  {
    SubFacts(t, x);
    var S := Sub(t, x);
    var s := Successor(t, x);
    assert Distinct(S.right) && x !in Ids(S.right);
    LeftmostFacts(S.right);
    assert s in Ids(S);
    SubFacts(t, s);
    SubSub(t, x, s);
    assert Sub(S, s) == Sub(S.right, s);
  }

  /** With two children, x sits at its rank and the successor right after it. */
  lemma SuccessorPosition(t: Shape, x: int)
    requires Distinct(t) && x in Ids(t) && TwoChildren(t, x)
    ensures Rank(t, x) + 1 < |InOrder(t)|
    ensures InOrder(t)[Rank(t, x)] == x && InOrder(t)[Rank(t, x) + 1] == Successor(t, x)
  {
    SubFacts(t, x);
    SuccessorSub(t, x);
    var S := Sub(t, x);
    SplitInOrder(t, x);
    assert InOrder(S) == InOrder(S.left) + [x] + InOrder(S.right);
    NextAfter(InOrder(t), Before(t, x), InOrder(S.left), x, InOrder(S.right), After(t, x));
  }

  lemma InOrderLeftless(S: Shape)
    requires S.Fork? && S.left.Nil?
    ensures InOrder(S) == [S.id] + InOrder(RightTree(S))
  {
    assert InOrder(S) == [] + [S.id] + InOrder(S.right);
  }

  /** Replacing a slot without a left child by its right subtree drops it from in-order. */
  lemma DropLeftless(t: Shape, s: int, k: nat)
    requires Distinct(t) && s in Ids(t) && Sub(t, s).Fork? && Sub(t, s).id == s && Sub(t, s).left.Nil?
    requires k < |InOrder(t)| && InOrder(t)[k] == s
    ensures InOrder(Replace(t, s, RightTree(Sub(t, s)))) == InOrder(t)[..k] + InOrder(t)[k + 1..]
  {
    var r := RightTree(Sub(t, s));
    var xs, B, M, A := InOrder(t), Before(t, s), InOrder(Sub(t, s)), After(t, s);
    var ys := InOrder(Replace(t, s, r));
    assert xs == B + M + A by { SplitInOrder(t, s); }
    assert ys == B + InOrder(r) + A by { ReplaceInOrder(t, s, r); }
    InOrderLeftless(Sub(t, s));
    assert Unique(xs) by { InOrderUnique(t); }
    DropAt(xs, B, M, A, s, InOrder(r), ys, k);
  }

  /** Replacing the successor by its right subtree drops it, right after x, from in-order. */
  lemma SuccessorOrder(t: Shape, x: int)
    requires Distinct(t) && x in Ids(t) && TwoChildren(t, x)
    ensures var s, xs, i := Successor(t, x), InOrder(t), Rank(t, x);
      && i + 1 < |xs| && xs[i] == x && xs[i + 1] == s
      && InOrder(Replace(t, s, RightTree(Sub(t, s)))) == xs[..i + 1] + xs[i + 2..]
  {
    SuccessorSub(t, x);
    SuccessorPosition(t, x);
    var s, xs, k := Successor(t, x), InOrder(t), Rank(t, x) + 1;
    DropLeftless(t, s, k);
    assert xs[..k] + xs[k + 1..] == xs[..Rank(t, x) + 1] + xs[Rank(t, x) + 2..];
  }

  /** With two children: copying the successor's value into x and dropping the successor
      loses exactly the value at x's position. */
  lemma SuccessorKeys(t: Shape, D: seq<int>, x: int)
    requires Distinct(t) && Stored(t, D) && x in Ids(t) && TwoChildren(t, x)
    ensures var s, i := Successor(t, x), Rank(t, x);
      && i < |InOrder(t)| && InOrder(t)[i] == x
      && Keys(Replace(t, s, RightTree(Sub(t, s))), Put(D, x, Get(D, s)))
         == Keys(t, D)[..i] + Keys(t, D)[i + 1..]
  {
    SuccessorOrder(t, x);
    InOrderUnique(t);
    var s := Successor(t, x);
    ValuesCopyDrop(InOrder(t), InOrder(Replace(t, s, RightTree(Sub(t, s)))), D, Rank(t, x), x, s);
  }

  /** With two children, the successor leaves the tree and every other slot stays. */
  lemma SuccessorShape(t: Shape, x: int)
    requires Distinct(t) && x in Ids(t) && TwoChildren(t, x)
    ensures var s := Successor(t, x);
      Distinct(Replace(t, s, RightTree(Sub(t, s)))) && Ids(Replace(t, s, RightTree(Sub(t, s)))) == Ids(t) - {s}
  {
    SuccessorSub(t, x);
    var s := Successor(t, x);
    SubFacts(t, s);
    var r := RightTree(Sub(t, s));
    ReplaceIds(t, s, r);
    ReplaceShrink(t, s, r);
  }

  /** t', D' is t, D with the value of slot x removed: one slot fewer, still distinct and
      sorted, and the values are the old ones without that value. */
  ghost predicate Shrunk(t: Shape, D: seq<int>, x: int, t': Shape, D': seq<int>) {
    && Distinct(t') && Stored(t', D') && |D'| == |D| && Ids(t') < Ids(t)
    && |InOrder(t')| + 1 == |InOrder(t)|
    && Sorted(Keys(t', D'))
    && multiset(Keys(t', D')) == multiset(Keys(t, D)) - multiset{Get(D, x)}
  }

  /** Dropping the value at position i of the values, where slot x sits. */
  lemma DropKeys(t: Shape, D: seq<int>, x: int, t': Shape, D': seq<int>, i: nat)
    requires Sorted(Keys(t, D)) && i < |InOrder(t)| && InOrder(t)[i] == x
    requires Keys(t', D') == Keys(t, D)[..i] + Keys(t, D)[i + 1..]
    ensures Sorted(Keys(t', D')) && multiset(Keys(t', D')) == multiset(Keys(t, D)) - multiset{Get(D, x)}
    ensures |InOrder(t')| + 1 == |InOrder(t)|
  {
    DropSorted(Keys(t, D), i);
  }

  lemma UnlinkOne(t: Shape, D: seq<int>, x: int, c: Shape)
    requires Distinct(t) && Stored(t, D) && Sorted(Keys(t, D)) && x in Ids(t) && OnlyChild(t, x, c)
    ensures Shrunk(t, D, x, Replace(t, x, c), D)
  {
    UnlinkSingle(t, D, x, c);
    DropKeys(t, D, x, Replace(t, x, c), D, Rank(t, x));
  }

  lemma UnlinkTwo(t: Shape, D: seq<int>, x: int)
    requires Distinct(t) && Stored(t, D) && Sorted(Keys(t, D)) && x in Ids(t) && TwoChildren(t, x)
    ensures var s := Successor(t, x);
      Shrunk(t, D, x, Replace(t, s, RightTree(Sub(t, s))), Put(D, x, Get(D, s)))
  {
    var s := Successor(t, x);
    SuccessorKeys(t, D, x);
    SuccessorShape(t, x);
    SuccessorSub(t, x);
    DropKeys(t, D, x, Replace(t, s, RightTree(Sub(t, s))), Put(D, x, Get(D, s)), Rank(t, x));
  }

  /** Unlinking the slot holding v from a sorted tree leaves a sorted tree whose values are the
      old values without v, with one slot fewer. */
  lemma UnlinkFacts(t: Shape, D: seq<int>, x: int)
    requires Distinct(t) && Stored(t, D) && Sorted(Keys(t, D)) && x in Ids(t)
    ensures Shrunk(t, D, x, Unlink(t, D, x).0, Unlink(t, D, x).1)
  {
    SubFacts(t, x);
    var S := Sub(t, x);
    if TwoChildren(t, x) {
      UnlinkTwo(t, D, x);
    } else if S.right.Fork? {
      UnlinkOne(t, D, x, S.right);
    } else if S.left.Fork? {
      UnlinkOne(t, D, x, S.left);
    } else {
      UnlinkOne(t, D, x, Nil);
    }
  }
}
