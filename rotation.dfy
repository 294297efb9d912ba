/** Rotation of a child over its parent, on shapes and on links (RedBlackTree.rotate). */
module Rotation {
  import opened Shapes
  import opened Links

  /** c is one of the two children of p in t. */
  ghost predicate ChildOf(t: Shape, c: int, p: int) {
    c != NIL && (LeftOf(t, p) == c || RightOf(t, p) == c)
  }

  /** The shape after rotating c over its parent p: a right rotation when c is the left child,
      a left rotation when c is the right child, and no change when c is not a child of p. */
  ghost function RotateShape(t: Shape, c: int, p: int): Shape {
    var s := Sub(t, p);
    if s.Fork? && s.left.Fork? && s.left.id == c then
      Replace(t, p, Fork(s.left.left, s.left.id, Fork(s.left.right, s.id, s.right)))
    else if s.Fork? && s.right.Fork? && s.right.id == c then
      Replace(t, p, Fork(Fork(s.left, s.id, s.right.left), s.right.id, s.right.right))
    else
      t
  }

  /** The child of c on the side away from p: it moves up together with c. */
  ghost function Outer(t: Shape, c: int, p: int): int {
    if LeftOf(t, p) == c then LeftOf(t, c) else RightOf(t, c)
  }

  /** The child of c on the side towards p: it changes parent from c to p. */
  ghost function Inner(t: Shape, c: int, p: int): int {
    if LeftOf(t, p) == c then RightOf(t, c) else LeftOf(t, c)
  }

  lemma RotateUnrelated(t: Shape, c: int, p: int)
    requires Distinct(t) && (p in Ids(t) ==> !ChildOf(t, c, p))
    ensures RotateShape(t, c, p) == t
  {
    if p in Ids(t) {
      SubFacts(t, p);
    }
  }

  /** What a rotation does to the tree: the same slots in the same in-order, c in the place of
      p, p below c, and c and its outer child one level higher. */
  lemma RotateFacts(t: Shape, c: int, p: int)
    requires Distinct(t) && p in Ids(t) && ChildOf(t, c, p)
    ensures var t' := RotateShape(t, c, p);
      && Distinct(t') && Ids(t') == Ids(t) && InOrder(t') == InOrder(t)
      && c in Ids(t) && Top(t') == (if p == Top(t) then c else Top(t))
      && Par(t', c) == Par(t, p) && Par(t', p) == c
      && Depth(t', c) + 1 == Depth(t, c)
      && (Outer(t, c, p) != NIL ==>
            Par(t', Outer(t, c, p)) == c && Depth(t', Outer(t, c, p)) + 1 == Depth(t, Outer(t, c, p)))
  {
    var s := Rotated(t, c, p);
    RotateKeeps(t, c, p, s);
    RotateLifts(t, c, p, s);
  }

  /** The subtree that takes the place of p's subtree in a rotation. */
  ghost function Rotated(t: Shape, c: int, p: int): Shape
    requires Distinct(t) && p in Ids(t) && ChildOf(t, c, p)
  {
    SubFacts(t, p);
    var S := Sub(t, p);
    if S.left.Fork? && S.left.id == c then Fork(S.left.left, c, Fork(S.left.right, p, S.right))
    else Fork(Fork(S.left, p, S.right.left), c, S.right.right)
  }

  /** A rotation keeps the slots and their in-order, and c takes p's place at the top. */
  lemma RotateKeeps(t: Shape, c: int, p: int, s: Shape)
    requires Distinct(t) && p in Ids(t) && ChildOf(t, c, p) && s == Rotated(t, c, p)
    ensures RotateShape(t, c, p) == Replace(t, p, s)
    ensures var t' := RotateShape(t, c, p);
      && Distinct(t') && Ids(t') == Ids(t) && InOrder(t') == InOrder(t)
      && c in Ids(t) && Top(t') == (if p == Top(t) then c else Top(t))
  {
    SubFacts(t, p);
    var S := Sub(t, p);
    assert InOrder(s) == InOrder(S);
    ReplaceDistinct(t, p, s);
    SplitInOrder(t, p);
    ReplaceInOrder(t, p, s);
    ReplaceTop(t, p, s);
  }

  /** A rotation hangs c where p was, p below c, and lifts c and its outer child one level. */
  lemma RotateLifts(t: Shape, c: int, p: int, s: Shape)
    requires Distinct(t) && p in Ids(t) && ChildOf(t, c, p) && s == Rotated(t, c, p)
    requires RotateShape(t, c, p) == Replace(t, p, s)
    ensures var t' := RotateShape(t, c, p);
      && Par(t', c) == Par(t, p) && Par(t', p) == c
      && Depth(t', c) + 1 == Depth(t, c)
      && (Outer(t, c, p) != NIL ==>
            Par(t', Outer(t, c, p)) == c && Depth(t', Outer(t, c, p)) + 1 == Depth(t, Outer(t, c, p)))
  {
    SubFacts(t, p);
    ReplacePar(t, p, s, c);
    ReplacePar(t, p, s, p);
    SubPar(t, p, c);
    var y := Outer(t, c, p);
    if y != NIL {
      ChildSub(t, p);
      ChildSub(t, c);
      ReplacePar(t, p, s, y);
      SubPar(t, p, y);
    }
  }

  /** The link rewiring of RedBlackTree.rotate, stated slot by slot: c takes p's parent g,
      p hangs below c, the inner child of c moves below p, and g's child link that pointed
      at p now points at c. */
  ghost predicate Rewired(t: Shape, c: int, p: int,
                          P: seq<int>, L: seq<int>, R: seq<int>,
                          P': seq<int>, L': seq<int>, R': seq<int>)
  {
    var g, inner, right := Par(t, p), Inner(t, c, p), LeftOf(t, p) == c;
    && |P'| == |P| && |L'| == |L| && |R'| == |R|
    && (forall j :: 0 <= j < |P| ==>
          P'[j] == (if j == c then g else if j == p then c else if j == inner then p else P[j]))
    && (forall j :: 0 <= j < |L| ==>
          L'[j] == (if right && j == p then inner else if !right && j == c then p
                    else if j == g && LeftOf(t, g) == p then c else L[j]))
    && (forall j :: 0 <= j < |R| ==>
          R'[j] == (if right && j == c then p else if !right && j == p then inner
                    else if j == g && RightOf(t, g) == p then c else R[j]))
  }

  /** The slots a rotation touches and what their links hold: c, p, p's parent g and the
      inner child of c are distinct slots, and g is NIL exactly when p is the top. */
  ghost predicate Slots(t: Shape, c: int, p: int, P: seq<int>, L: seq<int>, R: seq<int>) {
    var g, inner := Par(t, p), Inner(t, c, p);
    && 0 <= c < |P| && c < |L| && c < |R| && 0 <= p < |P| && p < |L| && p < |R|
    && P[c] == p && P[p] == g && L[p] == LeftOf(t, p) && R[p] == RightOf(t, p)
    && inner == (if L[p] == c then R[c] else L[c])
    && (g == NIL <==> p == Top(t))
    && (g != NIL ==> 0 <= g < |L| && g < |R| && (L[g] == p <==> R[g] != p))
    && (g != NIL ==> (L[g] == p <==> LeftOf(t, g) == p) && (R[g] == p <==> RightOf(t, g) == p))
    && (LeftOf(t, p) == c <==> RightOf(t, p) != c)
    && c != p && c != g && p != g
    && (inner != NIL ==> 0 <= inner < |P| && inner != c && inner != p && inner != g)
  }

  /** Rewired, from the updates rotate makes: c takes g as its parent and p as its child on
      the inner side, p takes c as its parent and the inner child in c's old place, and g's
      link to p now leads to c. */
  lemma RewiredUpdates(t: Shape, c: int, p: int,
                       P: seq<int>, L: seq<int>, R: seq<int>,
                       P': seq<int>, L': seq<int>, R': seq<int>)
    requires |L| == |P| && |R| == |P| && Slots(t, c, p, P, L, R)
    requires var g, inner, right := Par(t, p), Inner(t, c, p), LeftOf(t, p) == c;
      && P' == (if inner != NIL then P[c := g][p := c][inner := p] else P[c := g][p := c])
      && var L1, R1 := if right then L[p := inner] else L[c := p], if right then R[c := p] else R[p := inner];
      && L' == (if g != NIL && L[g] == p then L1[g := c] else L1)
      && R' == (if g != NIL && R[g] == p then R1[g := c] else R1)
    ensures Rewired(t, c, p, P, L, R, P', L', R')
  {
  }

  lemma RotationSlots(t: Shape, c: int, p: int, P: seq<int>, L: seq<int>, R: seq<int>)
    requires Distinct(t) && Linked(t, NIL, P, L, R) && p in Ids(t) && ChildOf(t, c, p)
    ensures Slots(t, c, p, P, L, R)
  {
    ChildPar(t, p, c);
    LinkedFacts(t, NIL, P, L, R, p);
    LinkedFacts(t, NIL, P, L, R, c);
    ParDepth(t, p);
    ParDepth(t, c);
    ChildrenDiffer(t, p);
    var g := Par(t, p);
    if g != NIL {
      LinkedFacts(t, NIL, P, L, R, g);
      ParChild(t, p);
      ChildrenDiffer(t, g);
    }
    var inner := Inner(t, c, p);
    if inner != NIL {
      ChildPar(t, c, inner);
      ParDepth(t, inner);
      LinkedFacts(t, NIL, P, L, R, inner);
    }
  }

  /** Outside the rotated subtree only the grandparent's child link changes. */
  lemma RewiredOutside(t: Shape, c: int, p: int,
                       P: seq<int>, L: seq<int>, R: seq<int>,
                       P': seq<int>, L': seq<int>, R': seq<int>)
    requires Distinct(t) && Linked(t, NIL, P, L, R) && p in Ids(t) && ChildOf(t, c, p)
    requires Rewired(t, c, p, P, L, R, P', L', R')
    ensures forall j :: j in Ids(t) && j !in Ids(Sub(t, p)) ==>
      && j < |P| && j < |L| && j < |R| && j < |P'| && P'[j] == P[j]
      && L'[j] == (if L[j] == p then c else L[j])
      && R'[j] == (if R[j] == p then c else R[j])
  {
    SubFacts(t, p);
    ChildSub(t, p);
    ChildIds(t, p);
    forall j | j in Ids(t) && j !in Ids(Sub(t, p))
      ensures j < |P| && j < |L| && j < |R| && j < |P'| && P'[j] == P[j]
      ensures L'[j] == (if L[j] == p then c else L[j])
      ensures R'[j] == (if R[j] == p then c else R[j])
    {
      LinkedFacts(t, NIL, P, L, R, j);
      if Inner(t, c, p) != NIL {
        ChildIds(t, c);
        SubSub(t, p, c);
      }
      if L[j] == p || R[j] == p {
        ChildPar(t, j, p);
      }
    }
  }

  /** A subtree s inside p's subtree that holds neither c nor p, and the inner child of c at
      most as its top, keeps its links under the rewiring, with up' as its top's parent. */
  lemma RewiredFrame(t: Shape, c: int, p: int, s: Shape, up: int, up': int,
                     P: seq<int>, L: seq<int>, R: seq<int>,
                     P': seq<int>, L': seq<int>, R': seq<int>)
    requires Distinct(t) && Linked(t, NIL, P, L, R) && p in Ids(t) && ChildOf(t, c, p)
    requires Rewired(t, c, p, P, L, R, P', L', R')
    requires Distinct(s) && Linked(s, up, P, L, R) && Ids(s) <= Ids(Sub(t, p))
    requires c !in Ids(s) && p !in Ids(s) && (Inner(t, c, p) in Ids(s) ==> Inner(t, c, p) == Top(s))
    requires s.Fork? ==> P'[Top(s)] == up'
    ensures Linked(s, up', P', L', R')
  {
    forall j | j in Ids(s)
      ensures j < |P| && j < |L| && j < |R| && j < |P'| && j < |L'| && j < |R'|
      ensures L'[j] == L[j] && R'[j] == R[j] && (j != Top(s) ==> P'[j] == P[j])
    {
      RewiredSlot(t, c, p, P, L, R, P', L', R', j);
    }
    LinkedFrame(s, up, up', P, L, R, P', L', R');
  }

  /** A slot of p's subtree other than c and p keeps its child links, and its parent link too
      unless it is the inner child of c. */
  lemma RewiredSlot(t: Shape, c: int, p: int,
                    P: seq<int>, L: seq<int>, R: seq<int>,
                    P': seq<int>, L': seq<int>, R': seq<int>, j: int)
    requires Distinct(t) && Linked(t, NIL, P, L, R) && p in Ids(t) && ChildOf(t, c, p)
    requires Rewired(t, c, p, P, L, R, P', L', R')
    requires j in Ids(Sub(t, p)) && j != c && j != p
    ensures 0 <= j < |P| && j < |L| && j < |R| && j < |P'| && j < |L'| && j < |R'|
    ensures L'[j] == L[j] && R'[j] == R[j] && (j != Inner(t, c, p) ==> P'[j] == P[j])
  {
    SubFacts(t, p);
    ParNotInSub(t, p);
    LinkedFacts(t, NIL, P, L, R, j);
  }

  lemma RotateRightLinks(t: Shape, c: int, p: int,
                         P: seq<int>, L: seq<int>, R: seq<int>,
                         P': seq<int>, L': seq<int>, R': seq<int>)
    requires Distinct(t) && Linked(t, NIL, P, L, R) && p in Ids(t) && c != NIL && LeftOf(t, p) == c
    requires Rewired(t, c, p, P, L, R, P', L', R')
    ensures Linked(RotateShape(t, c, p), NIL, P', L', R')
  {
    SubFacts(t, p);
    ChildSub(t, p);
    var S := Sub(t, p);
    var g := Par(t, p);
    ParNotInSub(t, p);
    LinkedSub(t, NIL, P, L, R, p);
    forall j | j in Ids(S)
      ensures j < |P| && j < |L| && j < |R|
    {
      LinkedFacts(t, NIL, P, L, R, j);
    }
    var a, b, d := S.left.left, S.left.right, S.right;
    assert Inner(t, c, p) == Top(b);
    var s := Fork(a, S.left.id, Fork(b, S.id, d));
    RewiredFrame(t, c, p, a, c, c, P, L, R, P', L', R');
    RewiredFrame(t, c, p, b, c, p, P, L, R, P', L', R');
    RewiredFrame(t, c, p, d, p, p, P, L, R, P', L', R');
    assert Linked(s, g, P', L', R');
    RewiredOutside(t, c, p, P, L, R, P', L', R');
    LinkedReplace(t, NIL, p, s, P, L, R, P', L', R');
  }

  lemma RotateLeftLinks(t: Shape, c: int, p: int,
                        P: seq<int>, L: seq<int>, R: seq<int>,
                        P': seq<int>, L': seq<int>, R': seq<int>)
    requires Distinct(t) && Linked(t, NIL, P, L, R) && p in Ids(t) && c != NIL
    requires RightOf(t, p) == c && LeftOf(t, p) != c
    requires Rewired(t, c, p, P, L, R, P', L', R')
    ensures Linked(RotateShape(t, c, p), NIL, P', L', R')
  {
    SubFacts(t, p);
    ChildSub(t, p);
    var S := Sub(t, p);
    var g := Par(t, p);
    ParNotInSub(t, p);
    LinkedSub(t, NIL, P, L, R, p);
    forall j | j in Ids(S)
      ensures j < |P| && j < |L| && j < |R|
    {
      LinkedFacts(t, NIL, P, L, R, j);
    }
    var a, b, d := S.left, S.right.left, S.right.right;
    assert Inner(t, c, p) == Top(b);
    var s := Fork(Fork(a, S.id, b), S.right.id, d);
    RewiredFrame(t, c, p, a, p, p, P, L, R, P', L', R');
    RewiredFrame(t, c, p, b, c, p, P, L, R, P', L', R');
    RewiredFrame(t, c, p, d, c, c, P, L, R, P', L', R');
    assert Linked(s, g, P', L', R');
    RewiredOutside(t, c, p, P, L, R, P', L', R');
    LinkedReplace(t, NIL, p, s, P, L, R, P', L', R');
  }

  /** The rewired links link the rotated shape. */
  lemma RotateLinks(t: Shape, c: int, p: int,
                    P: seq<int>, L: seq<int>, R: seq<int>,
                    P': seq<int>, L': seq<int>, R': seq<int>)
    requires Distinct(t) && Linked(t, NIL, P, L, R) && p in Ids(t) && ChildOf(t, c, p)
    requires Rewired(t, c, p, P, L, R, P', L', R')
    ensures Linked(RotateShape(t, c, p), NIL, P', L', R')
  {
    if LeftOf(t, p) == c {
      RotateRightLinks(t, c, p, P, L, R, P', L', R');
    } else {
      RotateLeftLinks(t, c, p, P, L, R, P', L', R');
    }
  }
}
