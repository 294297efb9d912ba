/** The parent, left and right links of the arena, and how they must agree with a Shape.

    The Java node keeps parent, left child and right child in a three-slot array; the model
    keeps three sequences indexed by slot number, P (parent), L (left) and R (right). */
module Links {
  import opened Shapes

  /** Every node of t has the links its position in t demands; `up` is the parent of the top. */
  ghost predicate Linked(t: Shape, up: int, P: seq<int>, L: seq<int>, R: seq<int>) {
    match t
    case Nil => true
    case Fork(a, x, b) =>
      && x < |P| && x < |L| && x < |R|
      && P[x] == up && L[x] == Top(a) && R[x] == Top(b)
      && Linked(a, x, P, L, R) && Linked(b, x, P, L, R)
  }

  /** The parent of x: `up` for the top of t, its parent in t otherwise. */
  function Above(t: Shape, up: int, x: int): int {
    if x == Top(t) then up else Par(t, x)
  }

  /** What the links of a linked tree say about one of its nodes. */
  lemma {:induction false} LinkedFacts(t: Shape, up: int, P: seq<int>, L: seq<int>, R: seq<int>, x: int)
    requires Distinct(t) && Linked(t, up, P, L, R) && x in Ids(t)
    ensures x < |P| && x < |L| && x < |R|
    ensures P[x] == Above(t, up, x)
    ensures L[x] == LeftOf(t, x) && R[x] == RightOf(t, x)
  {
    match t
    case Fork(a, y, b) =>
      if x == y {
      } else if x in Ids(a) {
        LinkedFacts(a, y, P, L, R, x);
      } else {
        LinkedFacts(b, y, P, L, R, x);
      }
  }

  /** Links that agree on every node of t keep t linked; the top may get a new parent. */
  lemma {:induction false} LinkedFrame(t: Shape, up: int, up': int,
                                        P: seq<int>, L: seq<int>, R: seq<int>,
                                        P': seq<int>, L': seq<int>, R': seq<int>)
    requires Distinct(t) && Linked(t, up, P, L, R)
    requires forall j :: j in Ids(t) ==>
      && j < |P| && j < |L| && j < |R|
      && j < |P'| && j < |L'| && j < |R'| && L'[j] == L[j] && R'[j] == R[j]
      && (j != Top(t) ==> P'[j] == P[j])
    requires t.Fork? ==> P'[Top(t)] == up'
    ensures Linked(t, up', P', L', R')
  {
    match t
    case Nil =>
    case Fork(a, x, b) =>
      LinkedFrame(a, x, x, P, L, R, P', L', R');
      LinkedFrame(b, x, x, P, L, R, P', L', R');
  }

  /** Replacing the subtree at x by s keeps the tree linked when s is linked below x's old
      parent and every other node keeps its links, except that a child link that pointed
      at x now points at the top of s. */
  lemma {:induction false} LinkedReplace(t: Shape, up: int, x: int, s: Shape,
                                          P: seq<int>, L: seq<int>, R: seq<int>,
                                          P': seq<int>, L': seq<int>, R': seq<int>)
    requires Distinct(t) && x in Ids(t) && Linked(t, up, P, L, R)
    requires Linked(s, Above(t, up, x), P', L', R')
    requires forall j :: j in Ids(t) && j !in Ids(Sub(t, x)) ==>
      && j < |P| && j < |L| && j < |R| && j < |P'| && j < |L'| && j < |R'| && P'[j] == P[j]
      && L'[j] == (if L[j] == x then Top(s) else L[j])
      && R'[j] == (if R[j] == x then Top(s) else R[j])
    ensures Linked(Replace(t, x, s), up, P', L', R')
  {
    match t
    case Fork(a, y, b) =>
      if x == y {
      } else if x in Ids(a) {
        SubFacts(a, x);
        assert Sub(t, x) == Sub(a, x);
        LinkedReplace(a, y, x, s, P, L, R, P', L', R');
        ReplaceTop(a, x, s);
        assert y !in Ids(Sub(t, x)) && Top(b) != x;
        assert Replace(t, x, s) == Fork(Replace(a, x, s), y, b);
        forall j | j in Ids(b)
          ensures j < |P| && j < |L| && j < |R|
          ensures j < |P'| && j < |L'| && j < |R'| && L'[j] == L[j] && R'[j] == R[j]
          ensures j != Top(b) ==> P'[j] == P[j]
        {
          LinkedFacts(b, y, P, L, R, j);
          ChildIds(b, j);
        }
        LinkedFrame(b, y, y, P, L, R, P', L', R');
      } else {
        SubFacts(b, x);
        assert Sub(t, x) == Sub(b, x);
        LinkedReplace(b, y, x, s, P, L, R, P', L', R');
        ReplaceTop(b, x, s);
        assert y !in Ids(Sub(t, x)) && Top(a) != x;
        assert Replace(t, x, s) == Fork(a, y, Replace(b, x, s));
        forall j | j in Ids(a)
          ensures j < |P| && j < |L| && j < |R|
          ensures j < |P'| && j < |L'| && j < |R'| && L'[j] == L[j] && R'[j] == R[j]
          ensures j != Top(a) ==> P'[j] == P[j]
        {
          LinkedFacts(a, y, P, L, R, j);
          ChildIds(a, j);
        }
        LinkedFrame(a, y, y, P, L, R, P', L', R');
      }
  }

  /** The subtree at x is linked below the parent of x. */
  lemma {:induction false} LinkedSub(t: Shape, up: int, P: seq<int>, L: seq<int>, R: seq<int>, x: int)
    requires Distinct(t) && Linked(t, up, P, L, R) && x in Ids(t)
    ensures Linked(Sub(t, x), Above(t, up, x), P, L, R)
  {
    match t
    case Fork(a, y, b) =>
      if x == y {
      } else if x in Ids(a) {
        LinkedSub(a, y, P, L, R, x);
      } else {
        LinkedSub(b, y, P, L, R, x);
      }
  }
  /** Links stay valid when fresh slots are appended. */
  lemma {:induction false} LinkedExtend(t: Shape, up: int, P: seq<int>, L: seq<int>, R: seq<int>,
                                        P': seq<int>, L': seq<int>, R': seq<int>)
    requires Linked(t, up, P, L, R)
    requires |P| <= |P'| && |L| <= |L'| && |R| <= |R'|
    requires P'[..|P|] == P && L'[..|L|] == L && R'[..|R|] == R
    ensures Linked(t, up, P', L', R')
  {
    match t
    case Nil =>
    case Fork(a, x, b) =>
      assert P'[x] == P'[..|P|][x] && L'[x] == L'[..|L|][x] && R'[x] == R'[..|R|][x];
      LinkedExtend(a, x, P, L, R, P', L', R');
      LinkedExtend(b, x, P, L, R, P', L', R');
  }

  /** Hanging a fresh slot n below x: n records x as its parent and x records n as its left
      (or right) child, which was NIL. */
  lemma LinkedHang(t: Shape, x: int, n: nat, left: bool, P: seq<int>, L: seq<int>, R: seq<int>,
                   P': seq<int>, L': seq<int>, R': seq<int>)
    requires Distinct(t) && Linked(t, NIL, P, L, R) && x in Ids(t)
    requires |P| == n && |L| == n && |R| == n && 0 <= x < n
    requires if left then LeftOf(t, x) == NIL else RightOf(t, x) == NIL
    requires P' == (P + [NIL])[n := x]
    requires L' == if left then (L + [NIL])[x := n] else L + [NIL]
    requires R' == if left then R + [NIL] else (R + [NIL])[x := n]
    ensures Linked(Replace(t, x, Hang(Sub(t, x), n, left)), NIL, P', L', R')
  {
    SubFacts(t, x);
    LinkedFacts(t, NIL, P, L, R, x);
    LinkedSub(t, NIL, P, L, R, x);
    var S := Sub(t, x);
    var s := Hang(S, n, left);
    forall j | j in Ids(S)
      ensures j < n
    {
      LinkedFacts(t, NIL, P, L, R, j);
    }
    var keep := if left then S.right else S.left;
    assert Ids(keep) <= Ids(S) && x !in Ids(keep);
    forall j | j in Ids(keep)
      ensures j < |P| && j < |L| && j < |R| && j < |P'| && j < |L'| && j < |R'|
      ensures L'[j] == L[j] && R'[j] == R[j] && P'[j] == P[j]
    {
    }
    LinkedFrame(keep, x, x, P, L, R, P', L', R');
    assert Linked(s, Above(t, NIL, x), P', L', R');
    forall j | j in Ids(t) && j !in Ids(S)
      ensures j < |P| && j < |L| && j < |R| && j < |P'| && j < |L'| && j < |R'| && P'[j] == P[j]
      ensures L'[j] == (if L[j] == x then Top(s) else L[j])
      ensures R'[j] == (if R[j] == x then Top(s) else R[j])
    {
      LinkedFacts(t, NIL, P, L, R, j);
    }
    LinkedReplace(t, NIL, x, s, P, L, R, P', L', R');
  }

  /** The links after x is replaced by r (a child of x, or NIL): r records x's parent p, and
      p's right link is set to r when it pointed at x, its left link otherwise. */
  ghost predicate Lifted(x: int, r: int, P: seq<int>, L: seq<int>, R: seq<int>,
                         P': seq<int>, L': seq<int>, R': seq<int>)
  {
    && 0 <= x < |P| && |L| == |P| && |R| == |P|
    && (r != NIL ==> 0 <= r < |P|)
    && (P[x] != NIL ==> 0 <= P[x] < |P|)
    && P' == (if r == NIL then P else P[r := P[x]])
    && L' == (if P[x] != NIL && R[P[x]] != x then L[P[x] := r] else L)
    && R' == (if P[x] != NIL && R[P[x]] == x then R[P[x] := r] else R)
  }

  /** Replacing x by the subtree s of its child r (or by nothing when r is NIL) with the
      rewiring of Lifted links the new tree u. */
  lemma LinkedLift(t: Shape, x: int, r: int, s: Shape, u: Shape, P: seq<int>, L: seq<int>, R: seq<int>,
                   P': seq<int>, L': seq<int>, R': seq<int>)
    requires Distinct(t) && Linked(t, NIL, P, L, R) && x in Ids(t)
    requires r == NIL || LeftOf(t, x) == r || RightOf(t, x) == r
    requires Lifted(x, r, P, L, R, P', L', R')
    requires s == Sub(t, r) && u == Replace(t, x, s)
    ensures Linked(u, NIL, P', L', R')
  {
    LinkedFacts(t, NIL, P, L, R, x);
    if r != NIL {
      LinkedLiftBelow(t, x, r, s, P, L, R, P', L', R');
      ChildPar(t, x, r);
      SubFacts(t, r);
    } else {
      SubMissing(t, NIL);
    }
    forall j | j in Ids(t) && j !in Ids(Sub(t, x))
      ensures j < |P| && j < |L| && j < |R| && j < |P'| && j < |L'| && j < |R'| && P'[j] == P[j]
      ensures L'[j] == (if L[j] == x then Top(s) else L[j])
      ensures R'[j] == (if R[j] == x then Top(s) else R[j])
    {
      LiftedOutside(t, x, r, P, L, R, P', L', R', j);
    }
    LinkedReplace(t, NIL, x, s, P, L, R, P', L', R');
  }

  /** A slot outside x's subtree keeps its links, except that a child link to x now leads to r. */
  lemma LiftedOutside(t: Shape, x: int, r: int, P: seq<int>, L: seq<int>, R: seq<int>,
                      P': seq<int>, L': seq<int>, R': seq<int>, j: int)
    requires Distinct(t) && Linked(t, NIL, P, L, R) && x in Ids(t)
    requires r == NIL || LeftOf(t, x) == r || RightOf(t, x) == r
    requires Lifted(x, r, P, L, R, P', L', R')
    requires j in Ids(t) && j !in Ids(Sub(t, x))
    ensures && 0 <= j < |P| && j < |L| && j < |R| && j < |P'| && j < |L'| && j < |R'| && P'[j] == P[j]
      && L'[j] == (if L[j] == x then r else L[j])
      && R'[j] == (if R[j] == x then r else R[j])
  {
    LinkedFacts(t, NIL, P, L, R, j);
    LinkedFacts(t, NIL, P, L, R, x);
    ChildIds(t, x);
    if L[j] == x || R[j] == x {
      ChildPar(t, j, x);
      ChildrenDiffer(t, j);
    }
    if j == P[x] {
      ParChild(t, x);
      ChildrenDiffer(t, j);
    }
  }

  /** The lifted child's subtree s keeps its links, with x's parent as the parent of its top. */
  lemma LinkedLiftBelow(t: Shape, x: int, r: int, s: Shape, P: seq<int>, L: seq<int>, R: seq<int>,
                        P': seq<int>, L': seq<int>, R': seq<int>)
    requires Distinct(t) && Linked(t, NIL, P, L, R) && x in Ids(t)
    requires r != NIL && (LeftOf(t, x) == r || RightOf(t, x) == r)
    requires Lifted(x, r, P, L, R, P', L', R')
    requires s == Sub(t, r)
    ensures Linked(s, P[x], P', L', R')
  {
    ChildPar(t, x, r);
    SubFacts(t, r);
    LinkedSub(t, NIL, P, L, R, r);
    forall j | j in Ids(s)
      ensures j < |P| && j < |L| && j < |R| && j < |P'| && j < |L'| && j < |R'|
      ensures L'[j] == L[j] && R'[j] == R[j] && (j != Top(s) ==> P'[j] == P[j])
    {
      LiftedSlot(t, x, r, P, L, R, P', L', R', j);
    }
    LinkedFrame(s, x, P[x], P, L, R, P', L', R');
  }

  /** A slot below the lifted child keeps its links (its parent link too, unless it is r). */
  lemma LiftedSlot(t: Shape, x: int, r: int, P: seq<int>, L: seq<int>, R: seq<int>,
                   P': seq<int>, L': seq<int>, R': seq<int>, j: int)
    requires Distinct(t) && Linked(t, NIL, P, L, R) && x in Ids(t)
    requires r != NIL && (LeftOf(t, x) == r || RightOf(t, x) == r)
    requires Lifted(x, r, P, L, R, P', L', R')
    requires j in Ids(Sub(t, r))
    ensures && 0 <= j < |P| && j < |L| && j < |R| && j < |P'| && j < |L'| && j < |R'|
      && L'[j] == L[j] && R'[j] == R[j] && (j != r ==> P'[j] == P[j])
  {
    SubFacts(t, x);
    ChildIds(t, x);
    ChildSubs(t, x);
    ParNotInSub(t, x);
    LinkedFacts(t, NIL, P, L, R, x);
    assert j in Ids(Sub(t, x));
    LinkedFacts(t, NIL, P, L, R, j);
  }
}
