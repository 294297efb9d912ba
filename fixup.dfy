/** The insert fix-up of RedBlackTree (enforceRBTreePropertiesAfterInsert, enforceCaseOneHelper,
    toggleColorHelper and the parent/grandparent/uncle accessors) as functions on the shape and
    the colours, following the order of the cases in the Java code exactly. The imperative methods
    of the RedBlackTree class are proved equal to these functions. */
module Rebalance {
  import opened Shapes
  import opened Rotation

  /** The two colour codes of the blackHeight field. */
  const RED: int := 0
  const BLACK: int := 1

  /** The part of the tree state the fix-up reads and writes: the shape and every slot's colour. */
  datatype Painted = Painted(shape: Shape, colour: seq<int>)

  /** Every node of the tree has a colour slot. */
  ghost predicate Bounded(s: Painted) {
    forall i :: i in Ids(s.shape) ==> i < |s.colour|
  }

  /** Every colour is red or black. */
  ghost predicate Binary(C: seq<int>) {
    forall i :: 0 <= i < |C| ==> C[i] == RED || C[i] == BLACK
  }

  /** toggleColorHelper: red becomes black, black becomes red; NIL and other codes stay. */
  function Toggle(C: seq<int>, x: int): (C': seq<int>)
    ensures |C'| == |C|
    ensures forall i :: 0 <= i < |C| && i != x ==> C'[i] == C[i]
    ensures 0 <= x < |C| && C[x] == RED ==> C'[x] == BLACK
    ensures 0 <= x < |C| && C[x] == BLACK ==> C'[x] == RED
    ensures 0 <= x < |C| && C[x] != RED && C[x] != BLACK ==> C'[x] == C[x]
  {
    if 0 <= x < |C| && C[x] == RED then C[x := BLACK]
    else if 0 <= x < |C| && C[x] == BLACK then C[x := RED]
    else C
  }

  /** Toggling twice gives the colours back. */
  lemma ToggleTwice(C: seq<int>, x: int)
    ensures Toggle(Toggle(C, x), x) == C
  {
  }

  ghost predicate IsLeftChild(t: Shape, x: int) {
    Par(t, x) != NIL && LeftOf(t, Par(t, x)) == x
  }

  ghost predicate IsRightChild(t: Shape, x: int) {
    Par(t, x) != NIL && RightOf(t, Par(t, x)) == x
  }

  ghost function Grandparent(t: Shape, x: int): int {
    Par(t, Par(t, x))
  }

  /** The other child of the grandparent. */
  ghost function Uncle(t: Shape, x: int): int {
    if IsLeftChild(t, Par(t, x)) then RightOf(t, Grandparent(t, x)) else LeftOf(t, Grandparent(t, x))
  }

  /** The uncle test of cases 1 and 2: the uncle is absent or black. */
  ghost predicate UncleBlack(s: Painted, x: int) {
    Uncle(s.shape, x) == NIL || Get(s.colour, Uncle(s.shape, x)) == BLACK
  }

  /** The uncle test of case 3: the uncle is present and red. */
  ghost predicate UncleRed(s: Painted, x: int) {
    Uncle(s.shape, x) != NIL && Get(s.colour, Uncle(s.shape, x)) == RED
  }

  /** x and its parent lean the same way: both right children or both left children. */
  ghost predicate Outward(t: Shape, x: int) {
    var q := Par(t, x);
    var g := Par(t, q);
    q != NIL && g != NIL &&
    ((RightOf(t, g) == q && RightOf(t, q) == x) || (LeftOf(t, g) == q && LeftOf(t, q) == x))
  }

  /** The body of a case-1 branch: rotate x's parent over x's grandparent, then the old
      grandparent takes the parent's colour and x's parent takes the grandparent's. */
  ghost function SwapRotate(s: Painted, x: int): Painted {
    var q := Par(s.shape, x);
    var g := Par(s.shape, q);
    var qc, gc := Get(s.colour, q), Get(s.colour, g);
    var t' := RotateShape(s.shape, q, g);
    Painted(t', Put(Put(s.colour, g, qc), Par(t', x), gc))
  }

  /** enforceCaseOneHelper: the right-right branch, then (re-evaluated) the left-left branch. */
  ghost function CaseOne(s: Painted, x: int): Painted {
    var s1 :=
      if IsRightChild(s.shape, Par(s.shape, x)) && UncleBlack(s, x) && IsRightChild(s.shape, x)
      then SwapRotate(s, x) else s;
    if IsLeftChild(s1.shape, Par(s1.shape, x)) && UncleBlack(s1, x) && IsLeftChild(s1.shape, x)
    then SwapRotate(s1, x) else s1
  }

  /** One case-2 block: rotate n over its parent, then apply case 1 to the old parent. */
  ghost function Straighten(s: Painted, n: int): Painted {
    var p := Par(s.shape, n);
    CaseOne(Painted(RotateShape(s.shape, n, p), s.colour), p)
  }

  /** Cases 1 and 2 of enforceRBTreePropertiesAfterInsert, in source order. */
  ghost function Realign(s: Painted, n: int): Painted {
    var s1 := CaseOne(s, n);
    var s2 :=
      if IsRightChild(s1.shape, n) && IsLeftChild(s1.shape, Par(s1.shape, n)) && UncleBlack(s1, n)
      then Straighten(s1, n) else s1;
    if IsLeftChild(s2.shape, n) && IsRightChild(s2.shape, Par(s2.shape, n)) && UncleBlack(s2, n)
    then Straighten(s2, n) else s2
  }

  /** The final statement of every fix-up call: the root becomes black. */
  ghost function Blacken(s: Painted): Painted {
    Painted(s.shape, Put(s.colour, Top(s.shape), BLACK))
  }

  /** How a fix-up ends: normally, or by the null dereference at the case-3 test when case 2
      has lifted the node to the root. */
  datatype Outcome = Fixed(state: Painted) | Crashed(state: Painted)

  /** The state a slot-preserving step must keep: the same slots, distinct, in the same
      in-order, with the same number of colour slots. */
  ghost predicate Keeps(s: Painted, r: Painted) {
    && Distinct(r.shape) && Ids(r.shape) == Ids(s.shape) && InOrder(r.shape) == InOrder(s.shape)
    && |r.colour| == |s.colour| && (Binary(s.colour) ==> Binary(r.colour))
  }

  /** The recolouring of case 3: parent, grandparent and uncle of n are toggled. */
  ghost function Recolour(s: Painted, n: int): Painted {
    var t := s.shape;
    Painted(t, Toggle(Toggle(Toggle(s.colour, Par(t, n)), Grandparent(t, n)), Uncle(t, n)))
  }

  /** enforceRBTreePropertiesAfterInsert(n): a node without a parent only has the root
      blackened; otherwise cases 1 and 2 re-shape the tree around n and CaseThree finishes.
      The recursion of case 3 moves to the grandparent, two levels above n, and cases 1 and 2
      only ever lift n, so the depth of n decreases. */
  ghost function FixUp(s: Painted, n: int): (r: Outcome)
    requires Distinct(s.shape) && Bounded(s) && n in Ids(s.shape)
    ensures Keeps(s, r.state)
    ensures r.Fixed? ==> r.state.colour[Top(r.state.shape)] == BLACK
    decreases Depth(s.shape, n), 1
  {
    if Par(s.shape, n) == NIL then
      BlackenFacts(s);
      Fixed(Blacken(s))
    else
      RealignFacts(s, n);
      CaseThree(Realign(s, n), n)
  }

  /** The rest of enforceRBTreePropertiesAfterInsert once cases 1 and 2 have run: the case-3
      test dereferences the parent of n (Crashed when it is null); when the parent is a child
      and the uncle is red, parent, grandparent and uncle are toggled and the fix-up moves up
      to the grandparent if it and its parent are now both red; the root is blackened last. */
  ghost function CaseThree(s: Painted, n: int): (r: Outcome)
    requires Distinct(s.shape) && Bounded(s) && n in Ids(s.shape)
    ensures Keeps(s, r.state)
    ensures r.Fixed? ==> r.state.colour[Top(r.state.shape)] == BLACK
    decreases Depth(s.shape, n), 0
  {
    var t := s.shape;
    var p := Par(t, n);
    if p == NIL then
      Crashed(s)
    else if (IsRightChild(t, p) || IsLeftChild(t, p)) && UncleRed(s, n) then
      var g := Grandparent(t, n);
      var s4 := Recolour(s, n);
      RecolourFacts(s, n);
      BlackenFacts(s4);
      if g != Top(t) && Grandparent(t, g) != NIL
         && Get(s4.colour, g) == RED && Get(s4.colour, Par(t, g)) == RED then
        ParDepth(t, n);
        ParDepth(t, p);
        match FixUp(s4, g)
        case Crashed(x) => Crashed(x)
        case Fixed(x) => BlackenFacts(x); Fixed(Blacken(x))
      else
        Fixed(Blacken(s4))
    else
      BlackenFacts(s);
      Fixed(Blacken(s))
  }


  // ---------------------------------------------------------------------------
  // Lemmas

  lemma PutBinary(C: seq<int>, x: int, c: int)
    requires Binary(C) && (c == RED || c == BLACK)
    ensures Binary(Put(C, x, c)) && |Put(C, x, c)| == |C|
  {
  }

  lemma RecolourFacts(s: Painted, n: int)
    requires Distinct(s.shape) && Bounded(s)
    ensures Keeps(s, Recolour(s, n)) && Bounded(Recolour(s, n)) && Recolour(s, n).shape == s.shape
  {
  }

  /** Blackening keeps the tree and makes the root black. */
  lemma BlackenFacts(s: Painted)
    requires Distinct(s.shape) && Bounded(s)
    ensures Keeps(s, Blacken(s)) && Bounded(Blacken(s))
    ensures s.shape.Fork? ==> Blacken(s).colour[Top(s.shape)] == BLACK
  {
    if s.shape.Fork? {
      assert Top(s.shape) in Ids(s.shape);
    }
  }

  /** A case-1 branch lifts x and its parent one level each and keeps x below its parent. */
  lemma SwapRotateFacts(s: Painted, x: int)
    requires Distinct(s.shape) && Bounded(s) && x in Ids(s.shape) && Outward(s.shape, x)
    ensures var r := SwapRotate(s, x);
      && Keeps(s, r)
      && Par(r.shape, x) == Par(s.shape, x)
      && Depth(r.shape, x) + 1 == Depth(s.shape, x)
      && Depth(r.shape, Par(s.shape, x)) + 1 == Depth(s.shape, Par(s.shape, x))
  {
    var t := s.shape;
    var q := Par(t, x);
    var g := Par(t, q);
    ParDepth(t, x);
    ParDepth(t, q);
    ChildrenDiffer(t, g);
    assert ChildOf(t, q, g);
    assert Outer(t, q, g) == x;
    RotateFacts(t, q, g);
    if Binary(s.colour) {
      var t' := RotateShape(t, q, g);
      PutBinary(s.colour, g, Get(s.colour, q));
      PutBinary(Put(s.colour, g, Get(s.colour, q)), Par(t', x), Get(s.colour, g));
    }
  }

  lemma {:induction false} CaseOneFacts(s: Painted, x: int)
    requires Distinct(s.shape) && Bounded(s) && x in Ids(s.shape)
    ensures var r := CaseOne(s, x);
      && Keeps(s, r)
      && Depth(r.shape, x) <= Depth(s.shape, x)
      && (Par(s.shape, x) != NIL ==>
            Par(r.shape, x) == Par(s.shape, x)
            && Depth(r.shape, Par(s.shape, x)) <= Depth(s.shape, Par(s.shape, x)))
  {
    var t := s.shape;
    var s1 :=
      if IsRightChild(t, Par(t, x)) && UncleBlack(s, x) && IsRightChild(t, x)
      then SwapRotate(s, x) else s;
    if IsRightChild(t, Par(t, x)) && UncleBlack(s, x) && IsRightChild(t, x) {
      SwapRotateFacts(s, x);
    }
    if IsLeftChild(s1.shape, Par(s1.shape, x)) && UncleBlack(s1, x) && IsLeftChild(s1.shape, x) {
      SwapRotateFacts(s1, x);
    }
  }

  lemma StraightenFacts(s: Painted, n: int)
    requires Distinct(s.shape) && Bounded(s) && n in Ids(s.shape)
    requires Par(s.shape, n) != NIL
    ensures var r := Straighten(s, n);
      Keeps(s, r) && Depth(r.shape, n) < Depth(s.shape, n)
  {
    var t := s.shape;
    var p := Par(t, n);
    ParDepth(t, n);
    ParChild(t, n);
    RotateFacts(t, n, p);
    var s' := Painted(RotateShape(t, n, p), s.colour);
    CaseOneFacts(s', p);
  }

  lemma RealignFacts(s: Painted, n: int)
    requires Distinct(s.shape) && Bounded(s) && n in Ids(s.shape)
    ensures var r := Realign(s, n);
      Keeps(s, r) && Depth(r.shape, n) <= Depth(s.shape, n)
  {
    CaseOneFacts(s, n);
    var s1 := CaseOne(s, n);
    var s2 :=
      if IsRightChild(s1.shape, n) && IsLeftChild(s1.shape, Par(s1.shape, n)) && UncleBlack(s1, n)
      then Straighten(s1, n) else s1;
    if IsRightChild(s1.shape, n) && IsLeftChild(s1.shape, Par(s1.shape, n)) && UncleBlack(s1, n) {
      StraightenFacts(s1, n);
    }
    if IsLeftChild(s2.shape, n) && IsRightChild(s2.shape, Par(s2.shape, n)) && UncleBlack(s2, n) {
      StraightenFacts(s2, n);
    }
  }
}
