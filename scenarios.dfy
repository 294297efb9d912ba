/** Concrete runs of insert from an empty tree. */
module Scenarios {
  import opened Shapes
  import opened Rebalance
  import opened Rotation
  import opened Search
  import opened Model

  /** A single node with no children. */
  function Leaf(x: nat): Shape {
    Fork(Nil, x, Nil)
  }

  /** Inserting the values of vs one after the other, stopping at the first insert that does
      not end normally. */
  ghost function Run(s: State, vs: seq<int>): Insertion
    requires Sound(s)
    decreases |vs|
  {
    if vs == [] then Inserted(s)
    else
      match Insert(s, vs[0])
      case Inserted(s') => Run(s', vs[1..])
      case r => r
  }

  lemma Regroup(xs: seq<int>, v: int, vs: seq<int>)
    ensures xs + ([v] + vs) == (xs + [v]) + vs
  {
  }

  lemma RunStep(s: State, v: int, vs: seq<int>, s': State)
    requires Sound(s) && Insert(s, v) == Inserted(s')
    ensures Sound(s') && Run(s, [v] + vs) == Run(s', vs)
  {
    assert ([v] + vs)[1..] == vs;
  }

  function Height(t: Shape): nat {
    match t
    case Nil => 0
    case Fork(a, _, b) => 1 + (if Height(a) < Height(b) then Height(b) else Height(a))
  }

  /** The slots at depth k, left to right. */
  function Level(t: Shape, k: nat): seq<int> {
    match t
    case Nil => []
    case Fork(a, x, b) => if k == 0 then [x] else Level(a, k - 1) + Level(b, k - 1)
  }

  function Levels(t: Shape, k: nat): seq<int>
    decreases Height(t) - k
  {
    if k >= Height(t) then [] else Level(t, k) + Levels(t, k + 1)
  }

  /** The order of toLevelOrderStringWithColor: level by level, each level left to right. */
  function LevelOrder(t: Shape): seq<int> {
    Levels(t, 0)
  }

  /** The tree after inserting a. */
  function OneNode(a: int): State {
    State(Leaf(0), [a], [BLACK])
  }

  /** The tree after inserting a, then a smaller b. */
  function TwoNodes(a: int, b: int): State {
    State(Fork(Leaf(1), 0, Nil), [a, b], [BLACK, RED])
  }

  /** The tree after inserting a, a smaller b, then a larger c. */
  function ThreeNodes(a: int, b: int, c: int): State {
    State(Fork(Leaf(1), 0, Leaf(2)), [a, b, c], [BLACK, RED, RED])
  }

  /** The tree after inserting a, a smaller b, a larger c, then a still larger d. */
  function FourNodes(a: int, b: int, c: int, d: int): State {
    State(RightLine(Leaf(3)), [a, b, c, d], [BLACK, BLACK, BLACK, RED])
  }

  /** The tree after inserting a, a smaller b, then c, d and e, each larger than the last. */
  function FiveNodes(a: int, b: int, c: int, d: int, e: int): State {
    State(Fork(Leaf(1), 0, Fork(Leaf(2), 3, Leaf(4))), [a, b, c, d, e], [BLACK, BLACK, RED, BLACK, RED])
  }

  /** The tree after inserting a, a smaller b, then c, d, e and f, each larger than the last. */
  function SixNodes(a: int, b: int, c: int, d: int, e: int, f: int): State {
    State(Fork(Leaf(1), 0, Fork(Leaf(2), 3, Fork(Nil, 4, Leaf(5)))), [a, b, c, d, e, f],
          [BLACK, BLACK, BLACK, RED, BLACK, RED])
  }

  /** The empty tree. */
  function Empty(): State {
    State(Nil, [], [])
  }

  /** Inserting the first value makes a black root. */
  lemma InsertFirst(a: int)
    ensures Insert(Empty(), a) == Inserted(OneNode(a))
  {
    assert Place(Nil, [], a, 0) == Some(Leaf(0));
    InsertPlaced(Empty(), a, Leaf(0));
  }

  /** A smaller second value becomes a red left child of the root. */
  lemma InsertSecond(a: int, b: int)
    requires b < a && Sound(OneNode(a))
    ensures Insert(OneNode(a), b) == Inserted(TwoNodes(a, b))
  {
    var s := OneNode(a);
    assert Place(s.shape, s.data, b, 1) == Some(Fork(Leaf(1), 0, Nil));
    InsertPlaced(s, b, Fork(Leaf(1), 0, Nil));
    assert s.colour + [RED] == [BLACK, RED] && s.data + [b] == [a, b];
  }

  /** A larger third value becomes a red right child: its parent is the root, so cases 1 and
      2 do not apply, case 3 finds no grandparent, and only the (already black) root is
      blackened. */
  lemma InsertThird(a: int, b: int, c: int)
    requires b < a < c
    requires Sound(TwoNodes(a, b))
    ensures Insert(TwoNodes(a, b), c) == Inserted(ThreeNodes(a, b, c))
  {
    var s := TwoNodes(a, b);
    var t := Fork(Leaf(1), 0, Leaf(2));
    assert Place(s.shape, s.data, c, 2) == Some(t);
    InsertPlaced(s, c, t);
    assert s.colour + [RED] == [BLACK, RED, RED] && s.data + [c] == [a, b, c];
    FixUpBelowRoot();
  }

  /** The fix-up of a red node whose parent is the black root changes nothing. */
  lemma FixUpBelowRoot()
    ensures var p := Painted(Fork(Leaf(1), 0, Leaf(2)), [BLACK, RED, RED]);
      FixUp(p, 2) == Fixed(p)
  {
    var t := Fork(Leaf(1), 0, Leaf(2));
    var p := Painted(t, [BLACK, RED, RED]);
    assert Par(t, 0) == NIL && Par(t, 2) == 0;
    assert CaseOne(p, 2) == p;
    assert Realign(p, 2) == p;
  }

  /** Below Fork(Leaf(1), 0, Leaf(2)): the three slots of InsertThird with a fourth one under
      slot 2. */
  function RightLine(x: Shape): Shape {
    Fork(Leaf(1), 0, Fork(Nil, 2, x))
  }

  /** A fourth value larger than the others goes below the red right child while the uncle is
      red: case 3 toggles parent, grandparent and uncle, the grandparent is the root and is
      blackened again. */
  lemma InsertFourth(a: int, b: int, c: int, d: int)
    requires b < a < c < d && Sound(ThreeNodes(a, b, c))
    ensures Insert(ThreeNodes(a, b, c), d) == Inserted(FourNodes(a, b, c, d))
  {
    var s := ThreeNodes(a, b, c);
    var t := RightLine(Leaf(3));
    assert Place(Leaf(2), s.data, d, 3) == Some(Fork(Nil, 2, Leaf(3)));
    assert Place(s.shape, s.data, d, 3) == Some(t);
    InsertPlaced(s, d, t);
    assert s.colour + [RED] == [BLACK, RED, RED, RED] && s.data + [d] == [a, b, c, d];
    FixUpUncleRed();
  }

  /** Case 3 with the root as grandparent. */
  lemma FixUpUncleRed()
    ensures FixUp(Painted(RightLine(Leaf(3)), [BLACK, RED, RED, RED]), 3)
         == Fixed(Painted(RightLine(Leaf(3)), [BLACK, BLACK, BLACK, RED]))
  {
    var t := RightLine(Leaf(3));
    var p := Painted(t, [BLACK, RED, RED, RED]);
    assert Par(t, 3) == 2 && Par(t, 2) == 0 && Par(t, 0) == NIL && Uncle(t, 3) == 1;
    assert CaseOne(p, 3) == p;
    assert Realign(p, 3) == p;
    assert Recolour(p, 3) == Painted(t, [RED, BLACK, BLACK, RED]);
  }

  /** A fifth value larger than the others goes below slot 3 in a line with its parent while
      the uncle is absent: case 1 rotates the parent over the grandparent and swaps their
      colours. */
  lemma InsertFifthInLine(a: int, b: int, c: int, d: int, e: int)
    requires b < a < c < d < e
    requires Sound(FourNodes(a, b, c, d))
    ensures Insert(FourNodes(a, b, c, d), e) == Inserted(FiveNodes(a, b, c, d, e))
  {
    var s := FourNodes(a, b, c, d);
    var t := RightLine(Fork(Nil, 3, Leaf(4)));
    assert Place(Leaf(3), s.data, e, 4) == Some(Fork(Nil, 3, Leaf(4)));
    assert Place(Fork(Nil, 2, Leaf(3)), s.data, e, 4) == Some(Fork(Nil, 2, Fork(Nil, 3, Leaf(4))));
    assert Place(s.shape, s.data, e, 4) == Some(t);
    InsertPlaced(s, e, t);
    assert s.colour + [RED] == [BLACK, BLACK, BLACK, RED, RED] && s.data + [e] == [a, b, c, d, e];
    FixUpLine();
  }

  /** Case 1, right-right: the whole fix-up. */
  lemma FixUpLine()
    ensures FixUp(Painted(RightLine(Fork(Nil, 3, Leaf(4))), [BLACK, BLACK, BLACK, RED, RED]), 4)
         == Fixed(Painted(Fork(Leaf(1), 0, Fork(Leaf(2), 3, Leaf(4))), [BLACK, BLACK, RED, BLACK, RED]))
  {
    assert Par(RightLine(Fork(Nil, 3, Leaf(4))), 4) == 3;
    RealignLine();
    CaseThreeBlackUncle();
  }

  /** The case-3 test after case 1 has made slot 3 the black parent of 4: the uncle, slot 1,
      is black, so only the root is blackened. */
  lemma CaseThreeBlackUncle()
    ensures var q := Painted(Fork(Leaf(1), 0, Fork(Leaf(2), 3, Leaf(4))), [BLACK, BLACK, RED, BLACK, RED]);
      CaseThree(q, 4) == Fixed(q)
  {
    var q := Painted(Fork(Leaf(1), 0, Fork(Leaf(2), 3, Leaf(4))), [BLACK, BLACK, RED, BLACK, RED]);
    assert Par(q.shape, 4) == 3 && Par(q.shape, 3) == 0 && Uncle(q.shape, 4) == 1;
    assert Blacken(q) == q;
  }

  /** Case 1, right-right: cases 1 and 2. */
  lemma RealignLine()
    ensures Realign(Painted(RightLine(Fork(Nil, 3, Leaf(4))), [BLACK, BLACK, BLACK, RED, RED]), 4)
         == Painted(Fork(Leaf(1), 0, Fork(Leaf(2), 3, Leaf(4))), [BLACK, BLACK, RED, BLACK, RED])
  {
    var t := RightLine(Fork(Nil, 3, Leaf(4)));
    var p := Painted(t, [BLACK, BLACK, BLACK, RED, RED]);
    var q := Painted(Fork(Leaf(1), 0, Fork(Leaf(2), 3, Leaf(4))), [BLACK, BLACK, RED, BLACK, RED]);
    SwapLine();
    assert Par(t, 4) == 3 && Par(t, 3) == 2 && Uncle(t, 4) == NIL;
    assert Par(q.shape, 4) == 3 && Par(q.shape, 3) == 0;
    assert CaseOne(p, 4) == q;
  }

  /** Case 1, right-right: the rotation of slot 3 over slot 2 and the colour swap. */
  lemma SwapLine()
    ensures SwapRotate(Painted(RightLine(Fork(Nil, 3, Leaf(4))), [BLACK, BLACK, BLACK, RED, RED]), 4)
         == Painted(Fork(Leaf(1), 0, Fork(Leaf(2), 3, Leaf(4))), [BLACK, BLACK, RED, BLACK, RED])
  {
    var t := RightLine(Fork(Nil, 3, Leaf(4)));
    var t' := Fork(Leaf(1), 0, Fork(Leaf(2), 3, Leaf(4)));
    assert Par(t, 4) == 3 && Par(t, 3) == 2;
    assert RotateShape(t, 3, 2) == t';
    assert Par(t', 4) == 3;
  }

  /** A fifth value between the two largest goes left below slot 3, making a triangle with its
      right-child parent while the uncle is absent: case 2 rotates it over its parent and case
      1 then rotates it over the grandparent, swapping colours. */
  lemma InsertFifthInTriangle(a: int, b: int, c: int, d: int, e: int)
    requires b < a < c < e < d
    requires Sound(FourNodes(a, b, c, d))
    ensures Insert(FourNodes(a, b, c, d), e)
         == Inserted(State(Fork(Leaf(1), 0, Fork(Leaf(2), 4, Leaf(3))), [a, b, c, d, e],
                           [BLACK, BLACK, RED, RED, BLACK]))
  {
    var s := FourNodes(a, b, c, d);
    var t := RightLine(Fork(Leaf(4), 3, Nil));
    assert Place(Leaf(3), s.data, e, 4) == Some(Fork(Leaf(4), 3, Nil));
    assert Place(Fork(Nil, 2, Leaf(3)), s.data, e, 4) == Some(Fork(Nil, 2, Fork(Leaf(4), 3, Nil)));
    assert Place(s.shape, s.data, e, 4) == Some(t);
    InsertPlaced(s, e, t);
    assert s.colour + [RED] == [BLACK, BLACK, BLACK, RED, RED] && s.data + [e] == [a, b, c, d, e];
    FixUpTriangle();
  }

  /** Case 2, right-left: the whole fix-up. */
  lemma FixUpTriangle()
    ensures FixUp(Painted(RightLine(Fork(Leaf(4), 3, Nil)), [BLACK, BLACK, BLACK, RED, RED]), 4)
         == Fixed(Painted(Fork(Leaf(1), 0, Fork(Leaf(2), 4, Leaf(3))), [BLACK, BLACK, RED, RED, BLACK]))
  {
    assert Par(RightLine(Fork(Leaf(4), 3, Nil)), 4) == 3;
    RealignTriangle();
    CaseThreeBelowRoot();
  }

  /** The case-3 test once slot 4 has become a child of the root: no grandparent, so only the
      root is blackened. */
  lemma CaseThreeBelowRoot()
    ensures var q := Painted(Fork(Leaf(1), 0, Fork(Leaf(2), 4, Leaf(3))), [BLACK, BLACK, RED, RED, BLACK]);
      CaseThree(q, 4) == Fixed(q)
  {
    var q := Painted(Fork(Leaf(1), 0, Fork(Leaf(2), 4, Leaf(3))), [BLACK, BLACK, RED, RED, BLACK]);
    assert Par(q.shape, 4) == 0 && Par(q.shape, 0) == NIL;
    assert Blacken(q) == q;
  }

  /** Case 2, right-left: cases 1 and 2. */
  lemma RealignTriangle()
    ensures Realign(Painted(RightLine(Fork(Leaf(4), 3, Nil)), [BLACK, BLACK, BLACK, RED, RED]), 4)
         == Painted(Fork(Leaf(1), 0, Fork(Leaf(2), 4, Leaf(3))), [BLACK, BLACK, RED, RED, BLACK])
  {
    var t := RightLine(Fork(Leaf(4), 3, Nil));
    var p := Painted(t, [BLACK, BLACK, BLACK, RED, RED]);
    var q := Painted(Fork(Leaf(1), 0, Fork(Leaf(2), 4, Leaf(3))), [BLACK, BLACK, RED, RED, BLACK]);
    assert Par(t, 4) == 3 && Par(t, 3) == 2 && Uncle(t, 4) == NIL;
    assert CaseOne(p, 4) == p;
    StraightenTriangle();
    assert Par(q.shape, 4) == 0;
  }

  /** Case 2, right-left: the rotation of slot 4 over slot 3, then case 1 from slot 3. */
  lemma StraightenTriangle()
    ensures Straighten(Painted(RightLine(Fork(Leaf(4), 3, Nil)), [BLACK, BLACK, BLACK, RED, RED]), 4)
         == Painted(Fork(Leaf(1), 0, Fork(Leaf(2), 4, Leaf(3))), [BLACK, BLACK, RED, RED, BLACK])
  {
    var t := RightLine(Fork(Leaf(4), 3, Nil));
    assert Par(t, 4) == 3;
    assert RotateShape(t, 4, 3) == RightLine(Fork(Nil, 4, Leaf(3)));
    CaseOneTriangle();
  }

  /** Case 1, right-right, from slot 3 after the case-2 rotation. */
  lemma CaseOneTriangle()
    ensures CaseOne(Painted(RightLine(Fork(Nil, 4, Leaf(3))), [BLACK, BLACK, BLACK, RED, RED]), 3)
         == Painted(Fork(Leaf(1), 0, Fork(Leaf(2), 4, Leaf(3))), [BLACK, BLACK, RED, RED, BLACK])
  {
    var t := RightLine(Fork(Nil, 4, Leaf(3)));
    var t' := Fork(Leaf(1), 0, Fork(Leaf(2), 4, Leaf(3)));
    assert Par(t, 3) == 4 && Par(t, 4) == 2 && Uncle(t, 3) == NIL;
    assert RotateShape(t, 4, 2) == t';
    assert Par(t', 3) == 4 && Par(t', 4) == 0;
  }

  /** The first insert of every test. */
  lemma RunOne(a: int, vs: seq<int>)
    ensures Sound(OneNode(a))
    ensures Run(Empty(), [a] + vs) == Run(OneNode(a), vs)
  {
    InsertFirst(a);
    RunStep(Empty(), a, vs, OneNode(a));
  }

  /** The first two inserts of every test. */
  lemma RunTwo(a: int, b: int, vs: seq<int>)
    requires b < a
    ensures Sound(TwoNodes(a, b))
    ensures Run(Empty(), [a, b] + vs) == Run(TwoNodes(a, b), vs)
  {
    RunOne(a, [b] + vs);
    InsertSecond(a, b);
    RunStep(OneNode(a), b, vs, TwoNodes(a, b));
    Regroup([a], b, vs);
    assert [a] + [b] == [a, b];
  }

  /** The first three inserts of every test. */
  lemma RunThree(a: int, b: int, c: int, vs: seq<int>)
    requires b < a < c
    ensures Sound(ThreeNodes(a, b, c)) && Run(Empty(), [a, b, c] + vs) == Run(ThreeNodes(a, b, c), vs)
  {
    RunTwo(a, b, [c] + vs);
    InsertThird(a, b, c);
    RunStep(TwoNodes(a, b), c, vs, ThreeNodes(a, b, c));
    Regroup([a, b], c, vs);
    assert [a, b] + [c] == [a, b, c];
  }

  /** The first four inserts of every test. */
  lemma RunFour(a: int, b: int, c: int, d: int, vs: seq<int>)
    requires b < a < c < d
    ensures Sound(FourNodes(a, b, c, d))
    ensures Run(Empty(), [a, b, c, d] + vs) == Run(FourNodes(a, b, c, d), vs)
  {
    RunThree(a, b, c, [d] + vs);
    InsertFourth(a, b, c, d);
    RunStep(ThreeNodes(a, b, c), d, vs, FourNodes(a, b, c, d));
    Regroup([a, b, c], d, vs);
    assert [a, b, c] + [d] == [a, b, c, d];
  }

  /** The first five inserts of testCaseOne. */
  lemma RunFive(a: int, b: int, c: int, d: int, e: int, vs: seq<int>)
    requires b < a < c < d < e
    ensures Sound(FiveNodes(a, b, c, d, e))
    ensures Run(Empty(), [a, b, c, d, e] + vs) == Run(FiveNodes(a, b, c, d, e), vs)
  {
    RunFour(a, b, c, d, [e] + vs);
    InsertFifthInLine(a, b, c, d, e);
    RunStep(FourNodes(a, b, c, d), e, vs, FiveNodes(a, b, c, d, e));
    Regroup([a, b, c, d], e, vs);
    assert [a, b, c, d] + [e] == [a, b, c, d, e];
  }

  /** testCaseOne: inserting 20, 10, 30, 40, 50 (case 1 at the last insert) gives the values
      20, 10, 40, 30, 50 in level order, coloured black, black, black, red, red (1 black, 0 red,
      as the dumps print them), and the values in increasing in-order. */
  lemma TestCaseOne()
    ensures var r := Run(Empty(), [20, 10, 30, 40, 50]);
      && r.Inserted?
      && Values(LevelOrder(r.after.shape), r.after.data) == [20, 10, 40, 30, 50]
      && Values(LevelOrder(r.after.shape), r.after.colour) == [1, 1, 1, 0, 0]
      && Values(InOrder(r.after.shape), r.after.data) == [10, 20, 30, 40, 50]
      && Values(InOrder(r.after.shape), r.after.colour) == [1, 1, 0, 1, 0]
  {
    RunFive(20, 10, 30, 40, 50, []);
    assert [20, 10, 30, 40, 50] + [] == [20, 10, 30, 40, 50];
    Orders(3, 2, 4);
    CaseOneValues();
  }

  lemma CaseOneValues()
    ensures Values([0, 1, 3, 2, 4], [20, 10, 30, 40, 50]) == [20, 10, 40, 30, 50]
    ensures Values([0, 1, 3, 2, 4], [BLACK, BLACK, RED, BLACK, RED]) == [1, 1, 1, 0, 0]
    ensures Values([1, 0, 2, 3, 4], [20, 10, 30, 40, 50]) == [10, 20, 30, 40, 50]
    ensures Values([1, 0, 2, 3, 4], [BLACK, BLACK, RED, BLACK, RED]) == [1, 1, 0, 1, 0]
  {
  }

  /** testCaseTwo: inserting 20, 10, 30, 50, 40 (case 2 at the last insert) gives the same
      values and colours as testCaseOne. */
  lemma TestCaseTwo()
    ensures var r := Run(Empty(), [20, 10, 30, 50, 40]);
      && r.Inserted?
      && Values(LevelOrder(r.after.shape), r.after.data) == [20, 10, 40, 30, 50]
      && Values(LevelOrder(r.after.shape), r.after.colour) == [1, 1, 1, 0, 0]
      && Values(InOrder(r.after.shape), r.after.data) == [10, 20, 30, 40, 50]
      && Values(InOrder(r.after.shape), r.after.colour) == [1, 1, 0, 1, 0]
  {
    var s := State(Fork(Leaf(1), 0, Fork(Leaf(2), 4, Leaf(3))), [20, 10, 30, 50, 40],
                   [BLACK, BLACK, RED, RED, BLACK]);
    RunFour(20, 10, 30, 50, [40]);
    InsertFifthInTriangle(20, 10, 30, 50, 40);
    RunStep(FourNodes(20, 10, 30, 50), 40, [], s);
    assert [20, 10, 30, 50] + [40] == [20, 10, 30, 50, 40] && [40] + [] == [40];
    Orders(4, 2, 3);
    CaseTwoValues();
  }

  lemma CaseTwoValues()
    ensures Values([0, 1, 4, 2, 3], [20, 10, 30, 50, 40]) == [20, 10, 40, 30, 50]
    ensures Values([0, 1, 4, 2, 3], [BLACK, BLACK, RED, RED, BLACK]) == [1, 1, 1, 0, 0]
    ensures Values([1, 0, 2, 4, 3], [20, 10, 30, 50, 40]) == [10, 20, 30, 40, 50]
    ensures Values([1, 0, 2, 4, 3], [BLACK, BLACK, RED, RED, BLACK]) == [1, 1, 0, 1, 0]
  {
  }

  /** testCaseThree: inserting 40, 20, 60, 80 (case 3 at the last insert) gives 40, 20, 60, 80
      in level order, coloured black except the last, and the values in increasing in-order. */
  lemma TestCaseThree()
    ensures var r := Run(Empty(), [40, 20, 60, 80]);
      && r.Inserted?
      && Values(LevelOrder(r.after.shape), r.after.data) == [40, 20, 60, 80]
      && Values(LevelOrder(r.after.shape), r.after.colour) == [1, 1, 1, 0]
      && Values(InOrder(r.after.shape), r.after.data) == [20, 40, 60, 80]
      && Values(InOrder(r.after.shape), r.after.colour) == [1, 1, 1, 0]
  {
    var s := FourNodes(40, 20, 60, 80);
    RunFour(40, 20, 60, 80, []);
    assert [40, 20, 60, 80] + [] == [40, 20, 60, 80];
    CaseThreeOrders();
    CaseThreeValues();
  }

  lemma CaseThreeOrders()
    ensures LevelOrder(RightLine(Leaf(3))) == [0, 1, 2, 3]
    ensures InOrder(RightLine(Leaf(3))) == [1, 0, 2, 3]
  {
    var t := RightLine(Leaf(3));
    assert Height(t) == 3;
    assert Level(t, 0) == [0] && Level(t, 1) == [1, 2] && Level(t, 2) == [3];
    assert Levels(t, 3) == [];
  }

  lemma CaseThreeValues()
    ensures Values([0, 1, 2, 3], [40, 20, 60, 80]) == [40, 20, 60, 80]
    ensures Values([0, 1, 2, 3], [BLACK, BLACK, BLACK, RED]) == [1, 1, 1, 0]
    ensures Values([1, 0, 2, 3], [40, 20, 60, 80]) == [20, 40, 60, 80]
    ensures Values([1, 0, 2, 3], [BLACK, BLACK, BLACK, RED]) == [1, 1, 1, 0]
  {
  }

  /** The orders of a five-node tree with slots 0 and 1 on top and x holding y and z. */
  lemma Orders(x: nat, y: nat, z: nat)
    ensures LevelOrder(Fork(Leaf(1), 0, Fork(Leaf(y), x, Leaf(z)))) == [0, 1, x, y, z]
    ensures InOrder(Fork(Leaf(1), 0, Fork(Leaf(y), x, Leaf(z)))) == [1, 0, y, x, z]
  {
    var t := Fork(Leaf(1), 0, Fork(Leaf(y), x, Leaf(z)));
    Heights(x, y, z);
    assert Levels(t, 2) == [y, z];
    assert Levels(t, 1) == [1, x, y, z];
    assert InOrder(Leaf(1)) == [1] && InOrder(Fork(Leaf(y), x, Leaf(z))) == [y, x, z];
  }

  lemma Heights(x: nat, y: nat, z: nat)
    ensures var t := Fork(Leaf(1), 0, Fork(Leaf(y), x, Leaf(z)));
      && Height(t) == 3 && Levels(t, 3) == []
      && Level(t, 0) == [0] && Level(t, 1) == [1, x] && Level(t, 2) == [y, z]
  {
    var t := Fork(Leaf(1), 0, Fork(Leaf(y), x, Leaf(z)));
    assert Height(Leaf(1)) == 1 && Height(Fork(Leaf(y), x, Leaf(z))) == 2;
    assert Level(Leaf(1), 1) == [] && Level(Fork(Leaf(y), x, Leaf(z)), 1) == [y, z];
  }

  /** Inserting 20, 10, 15: the third insert crashes, and the run stops there. */
  lemma TestRootLevelCaseTwo()
    ensures Run(Empty(), [20, 10, 15])
         == NullDereference(State(Fork(Leaf(1), 2, Leaf(0)), [20, 10, 15], [RED, RED, BLACK]))
  {
    RunTwo(20, 10, [15]);
    assert [20, 10] + [15] == [20, 10, 15];
    InsertThirdBetween(20, 10, 15);
  }

  /** A third value between the two others goes right below the red left child: case 2
      rotates it over its parent and case 1 then rotates it over the root, so the new node
      becomes the root, and the case-3 test dereferences its null parent. The new node is
      already linked and counted, the old root is red below it. */
  lemma InsertThirdBetween(a: int, b: int, c: int)
    requires b < c < a && Sound(TwoNodes(a, b))
    ensures Insert(TwoNodes(a, b), c)
         == NullDereference(State(Fork(Leaf(1), 2, Leaf(0)), [a, b, c], [RED, RED, BLACK]))
  {
    var s := TwoNodes(a, b);
    var t := Fork(Fork(Nil, 1, Leaf(2)), 0, Nil);
    assert Place(Leaf(1), s.data, c, 2) == Some(Fork(Nil, 1, Leaf(2)));
    assert Place(s.shape, s.data, c, 2) == Some(t);
    InsertPlaced(s, c, t);
    assert s.colour + [RED] == [BLACK, RED, RED] && s.data + [c] == [a, b, c];
    CrashFixUp();
  }

  /** Cases 2 and 1 lift slot 2 to the root, and case 3 finds no parent. */
  lemma CrashFixUp()
    ensures FixUp(Painted(Fork(Fork(Nil, 1, Leaf(2)), 0, Nil), [BLACK, RED, RED]), 2)
         == Crashed(Painted(Fork(Leaf(1), 2, Leaf(0)), [RED, RED, BLACK]))
  {
    CrashRealign();
  }

  /** Cases 1 and 2 from slot 2, the right child of the left child of the root. */
  lemma CrashRealign()
    ensures Realign(Painted(Fork(Fork(Nil, 1, Leaf(2)), 0, Nil), [BLACK, RED, RED]), 2)
         == Painted(Fork(Leaf(1), 2, Leaf(0)), [RED, RED, BLACK])
  {
    var t := Fork(Fork(Nil, 1, Leaf(2)), 0, Nil);
    var p := Painted(t, [BLACK, RED, RED]);
    assert CaseOne(p, 2) == p;
    CrashStraighten();
  }

  /** Case 2, left-right: the rotation of slot 2 over slot 1, then case 1 from slot 1. */
  lemma CrashStraighten()
    ensures Straighten(Painted(Fork(Fork(Nil, 1, Leaf(2)), 0, Nil), [BLACK, RED, RED]), 2)
         == Painted(Fork(Leaf(1), 2, Leaf(0)), [RED, RED, BLACK])
  {
    var t := Fork(Fork(Nil, 1, Leaf(2)), 0, Nil);
    var t1 := Fork(Fork(Leaf(1), 2, Nil), 0, Nil);
    assert RotateShape(t, 2, 1) == t1;
    CrashCaseOne();
  }

  /** Case 1, left-left, from slot 1: slot 2 is rotated over the root and takes its colour. */
  lemma CrashCaseOne()
    ensures CaseOne(Painted(Fork(Fork(Leaf(1), 2, Nil), 0, Nil), [BLACK, RED, RED]), 1)
         == Painted(Fork(Leaf(1), 2, Leaf(0)), [RED, RED, BLACK])
  {
    var t1 := Fork(Fork(Leaf(1), 2, Nil), 0, Nil);
    var t2 := Fork(Leaf(1), 2, Leaf(0));
    assert RotateShape(t1, 2, 0) == t2;
    assert Par(t2, 1) == 2;
  }

  // ---------------------------------------------------------------------------
  // The red-black rules, and inputs after which the tree breaks them

  /** The number of black nodes on the leftmost path of t down to a null reference. */
  function Blacks(t: Shape, C: seq<int>): nat {
    match t
    case Nil => 0
    case Fork(a, x, _) => (if Get(C, x) == BLACK then 1 else 0) + Blacks(a, C)
  }

  /** Every path from a node down to a null reference passes the same number of black nodes:
      at every node both subtrees are balanced and agree on that number. */
  ghost predicate BlackBalanced(t: Shape, C: seq<int>) {
    match t
    case Nil => true
    case Fork(a, _, b) => BlackBalanced(a, C) && BlackBalanced(b, C) && Blacks(a, C) == Blacks(b, C)
  }

  /** A red node has no red child. */
  ghost predicate NoRedRed(t: Shape, C: seq<int>) {
    match t
    case Nil => true
    case Fork(a, x, b) =>
      && NoRedRed(a, C) && NoRedRed(b, C)
      && (Get(C, x) == RED ==> (a.Nil? || Get(C, a.id) != RED) && (b.Nil? || Get(C, b.id) != RED))
  }

  /** A fifth value below all others goes left below the black left child of the root. The
      uncle (the right child of the root) is black, so case 1 rotates the parent over the root
      although the parent is black; both are black, so the colour swap changes nothing. */
  lemma InsertFifthLeft(a: int, b: int, c: int, d: int, e: int)
    requires e < b < a < c < d
    requires Sound(FourNodes(a, b, c, d))
    ensures Insert(FourNodes(a, b, c, d), e)
         == Inserted(State(Fork(Leaf(4), 1, Fork(Nil, 0, Fork(Nil, 2, Leaf(3)))), [a, b, c, d, e],
                           [BLACK, BLACK, BLACK, RED, RED]))
  {
    var s := FourNodes(a, b, c, d);
    var t := Fork(Fork(Leaf(4), 1, Nil), 0, Fork(Nil, 2, Leaf(3)));
    assert Place(Leaf(1), s.data, e, 4) == Some(Fork(Leaf(4), 1, Nil));
    assert Place(s.shape, s.data, e, 4) == Some(t);
    InsertPlaced(s, e, t);
    assert s.colour + [RED] == [BLACK, BLACK, BLACK, RED, RED] && s.data + [e] == [a, b, c, d, e];
    FixUpLeftBlackParent();
  }

  /** Case 1, left-left, around a black parent: the whole fix-up. */
  lemma FixUpLeftBlackParent()
    ensures FixUp(Painted(Fork(Fork(Leaf(4), 1, Nil), 0, Fork(Nil, 2, Leaf(3))), [BLACK, BLACK, BLACK, RED, RED]), 4)
         == Fixed(Painted(Fork(Leaf(4), 1, Fork(Nil, 0, Fork(Nil, 2, Leaf(3)))), [BLACK, BLACK, BLACK, RED, RED]))
  {
    var q := Painted(Fork(Leaf(4), 1, Fork(Nil, 0, Fork(Nil, 2, Leaf(3)))), [BLACK, BLACK, BLACK, RED, RED]);
    assert Par(Fork(Fork(Leaf(4), 1, Nil), 0, Fork(Nil, 2, Leaf(3))), 4) == 1;
    RealignLeftBlackParent();
    assert Par(q.shape, 4) == 1 && Par(q.shape, 1) == NIL;
    assert Blacken(q) == q;
  }

  /** Case 1, left-left, around a black parent: the rotation of slot 1 over the root. */
  lemma RealignLeftBlackParent()
    ensures Realign(Painted(Fork(Fork(Leaf(4), 1, Nil), 0, Fork(Nil, 2, Leaf(3))), [BLACK, BLACK, BLACK, RED, RED]), 4)
         == Painted(Fork(Leaf(4), 1, Fork(Nil, 0, Fork(Nil, 2, Leaf(3)))), [BLACK, BLACK, BLACK, RED, RED])
  {
    var t := Fork(Fork(Leaf(4), 1, Nil), 0, Fork(Nil, 2, Leaf(3)));
    var p := Painted(t, [BLACK, BLACK, BLACK, RED, RED]);
    var t' := Fork(Leaf(4), 1, Fork(Nil, 0, Fork(Nil, 2, Leaf(3))));
    assert Par(t, 4) == 1 && Par(t, 1) == 0 && Uncle(t, 4) == 2;
    assert RotateShape(t, 1, 0) == t';
    assert Par(t', 4) == 1 && Par(t', 1) == NIL;
    assert SwapRotate(p, 4) == Painted(t', p.colour);
    assert CaseOne(p, 4) == Painted(t', p.colour);
  }

  /** Inserting 40, 20, 60, 80, 10 ends normally, but the paths from the new root 20 differ:
      the path to the left of 10 passes one black node, the path to the right of 80 three. */
  lemma TestUnevenBlackHeights()
    ensures var r := Run(Empty(), [40, 20, 60, 80, 10]);
      && r == Inserted(State(Fork(Leaf(4), 1, Fork(Nil, 0, Fork(Nil, 2, Leaf(3)))), [40, 20, 60, 80, 10],
                             [BLACK, BLACK, BLACK, RED, RED]))
      && !BlackBalanced(r.after.shape, r.after.colour)
  {
    var s := State(Fork(Leaf(4), 1, Fork(Nil, 0, Fork(Nil, 2, Leaf(3)))), [40, 20, 60, 80, 10],
                   [BLACK, BLACK, BLACK, RED, RED]);
    RunFour(40, 20, 60, 80, [10]);
    InsertFifthLeft(40, 20, 60, 80, 10);
    RunStep(FourNodes(40, 20, 60, 80), 10, [], s);
    assert [40, 20, 60, 80] + [10] == [40, 20, 60, 80, 10] && [10] + [] == [10];
    UnevenBlackHeights();
  }

  lemma UnevenBlackHeights()
    ensures !BlackBalanced(Fork(Leaf(4), 1, Fork(Nil, 0, Fork(Nil, 2, Leaf(3)))), [BLACK, BLACK, BLACK, RED, RED])
  {
    var C := [BLACK, BLACK, BLACK, RED, RED];
    assert Blacks(Leaf(4), C) == 0;
    assert Blacks(Fork(Nil, 0, Fork(Nil, 2, Leaf(3))), C) == 1;
  }

  /** A sixth value larger than the others goes right below slot 4, whose sibling is red: case
      3 toggles parent, uncle and grandparent; the grandparent's parent is the root, so the
      fix-up does not move up, and the root stays black. */
  lemma InsertSixth(a: int, b: int, c: int, d: int, e: int, f: int)
    requires b < a < c < d < e < f
    requires Sound(FiveNodes(a, b, c, d, e))
    ensures Insert(FiveNodes(a, b, c, d, e), f) == Inserted(SixNodes(a, b, c, d, e, f))
  {
    var s := FiveNodes(a, b, c, d, e);
    var t := Fork(Leaf(1), 0, Fork(Leaf(2), 3, Fork(Nil, 4, Leaf(5))));
    assert Place(Leaf(4), s.data, f, 5) == Some(Fork(Nil, 4, Leaf(5)));
    assert Place(Fork(Leaf(2), 3, Leaf(4)), s.data, f, 5) == Some(Fork(Leaf(2), 3, Fork(Nil, 4, Leaf(5))));
    assert Place(s.shape, s.data, f, 5) == Some(t);
    InsertPlaced(s, f, t);
    assert s.colour + [RED] == [BLACK, BLACK, RED, BLACK, RED, RED] && s.data + [f] == [a, b, c, d, e, f];
    FixUpSixth();
  }

  /** Case 3 two levels below the root: the whole fix-up. */
  lemma FixUpSixth()
    ensures var t := Fork(Leaf(1), 0, Fork(Leaf(2), 3, Fork(Nil, 4, Leaf(5))));
      FixUp(Painted(t, [BLACK, BLACK, RED, BLACK, RED, RED]), 5)
      == Fixed(Painted(t, [BLACK, BLACK, BLACK, RED, BLACK, RED]))
  {
    var t := Fork(Leaf(1), 0, Fork(Leaf(2), 3, Fork(Nil, 4, Leaf(5))));
    assert Par(t, 5) == 4;
    RealignSixth();
    CaseThreeSixth();
  }

  /** Cases 1 and 2 do not apply to slot 5: its uncle, slot 2, is red. */
  lemma RealignSixth()
    ensures var t := Fork(Leaf(1), 0, Fork(Leaf(2), 3, Fork(Nil, 4, Leaf(5))));
      var p := Painted(t, [BLACK, BLACK, RED, BLACK, RED, RED]);
      Realign(p, 5) == p
  {
    var t := Fork(Leaf(1), 0, Fork(Leaf(2), 3, Fork(Nil, 4, Leaf(5))));
    var p := Painted(t, [BLACK, BLACK, RED, BLACK, RED, RED]);
    assert Par(t, 5) == 4 && Par(t, 4) == 3 && Uncle(t, 5) == 2;
    assert CaseOne(p, 5) == p;
  }

  /** The recolouring of case 3 for slot 5; the grandparent's parent is the black root. */
  lemma CaseThreeSixth()
    ensures var t := Fork(Leaf(1), 0, Fork(Leaf(2), 3, Fork(Nil, 4, Leaf(5))));
      CaseThree(Painted(t, [BLACK, BLACK, RED, BLACK, RED, RED]), 5)
      == Fixed(Painted(t, [BLACK, BLACK, BLACK, RED, BLACK, RED]))
  {
    var t := Fork(Leaf(1), 0, Fork(Leaf(2), 3, Fork(Nil, 4, Leaf(5))));
    var p := Painted(t, [BLACK, BLACK, RED, BLACK, RED, RED]);
    assert Par(t, 5) == 4 && Par(t, 4) == 3 && Par(t, 3) == 0 && Par(t, 0) == NIL;
    assert Uncle(t, 5) == 2;
    assert Recolour(p, 5) == Painted(t, [BLACK, BLACK, BLACK, RED, BLACK, RED]);
  }

  /** A seventh value below all others goes left below slot 1, whose sibling is red: case 3
      toggles the black parent to red, the uncle to black and the root to red, and the root is
      blackened again. The new red node now hangs below a red parent. */
  lemma InsertSeventh(a: int, b: int, c: int, d: int, e: int, f: int, g: int)
    requires g < b < a < c < d < e < f
    requires Sound(SixNodes(a, b, c, d, e, f))
    ensures Insert(SixNodes(a, b, c, d, e, f), g)
         == Inserted(State(Fork(Fork(Leaf(6), 1, Nil), 0, Fork(Leaf(2), 3, Fork(Nil, 4, Leaf(5)))),
                           [a, b, c, d, e, f, g], [BLACK, RED, BLACK, BLACK, BLACK, RED, RED]))
  {
    var s := SixNodes(a, b, c, d, e, f);
    var t := Fork(Fork(Leaf(6), 1, Nil), 0, Fork(Leaf(2), 3, Fork(Nil, 4, Leaf(5))));
    assert Place(Leaf(1), s.data, g, 6) == Some(Fork(Leaf(6), 1, Nil));
    assert Place(s.shape, s.data, g, 6) == Some(t);
    InsertPlaced(s, g, t);
    assert s.colour + [RED] == [BLACK, BLACK, BLACK, RED, BLACK, RED, RED];
    assert s.data + [g] == [a, b, c, d, e, f, g];
    FixUpSeventh();
  }

  /** Case 3 with a black parent: the whole fix-up. */
  lemma FixUpSeventh()
    ensures var t := Fork(Fork(Leaf(6), 1, Nil), 0, Fork(Leaf(2), 3, Fork(Nil, 4, Leaf(5))));
      FixUp(Painted(t, [BLACK, BLACK, BLACK, RED, BLACK, RED, RED]), 6)
      == Fixed(Painted(t, [BLACK, RED, BLACK, BLACK, BLACK, RED, RED]))
  {
    var t := Fork(Fork(Leaf(6), 1, Nil), 0, Fork(Leaf(2), 3, Fork(Nil, 4, Leaf(5))));
    assert Par(t, 6) == 1;
    RealignSeventh();
    CaseThreeSeventh();
  }

  /** Cases 1 and 2 do not apply to slot 6: its uncle, slot 3, is red. */
  lemma RealignSeventh()
    ensures var t := Fork(Fork(Leaf(6), 1, Nil), 0, Fork(Leaf(2), 3, Fork(Nil, 4, Leaf(5))));
      var p := Painted(t, [BLACK, BLACK, BLACK, RED, BLACK, RED, RED]);
      Realign(p, 6) == p
  {
    var t := Fork(Fork(Leaf(6), 1, Nil), 0, Fork(Leaf(2), 3, Fork(Nil, 4, Leaf(5))));
    var p := Painted(t, [BLACK, BLACK, BLACK, RED, BLACK, RED, RED]);
    assert Par(t, 6) == 1 && Par(t, 1) == 0 && Uncle(t, 6) == 3;
    assert CaseOne(p, 6) == p;
  }

  /** The recolouring of case 3 for slot 6; the grandparent is the root, blackened again. */
  lemma CaseThreeSeventh()
    ensures var t := Fork(Fork(Leaf(6), 1, Nil), 0, Fork(Leaf(2), 3, Fork(Nil, 4, Leaf(5))));
      CaseThree(Painted(t, [BLACK, BLACK, BLACK, RED, BLACK, RED, RED]), 6)
      == Fixed(Painted(t, [BLACK, RED, BLACK, BLACK, BLACK, RED, RED]))
  {
    var t := Fork(Fork(Leaf(6), 1, Nil), 0, Fork(Leaf(2), 3, Fork(Nil, 4, Leaf(5))));
    var p := Painted(t, [BLACK, BLACK, BLACK, RED, BLACK, RED, RED]);
    assert Par(t, 6) == 1 && Par(t, 1) == 0 && Par(t, 0) == NIL && Uncle(t, 6) == 3;
    assert Recolour(p, 6) == Painted(t, [RED, RED, BLACK, BLACK, BLACK, RED, RED]);
  }

  /** The first six inserts of the red-below-red run. */
  lemma RunSix(a: int, b: int, c: int, d: int, e: int, f: int, vs: seq<int>)
    requires b < a < c < d < e < f
    ensures Sound(SixNodes(a, b, c, d, e, f))
    ensures Run(Empty(), [a, b, c, d, e, f] + vs) == Run(SixNodes(a, b, c, d, e, f), vs)
  {
    RunFive(a, b, c, d, e, [f] + vs);
    InsertSixth(a, b, c, d, e, f);
    RunStep(FiveNodes(a, b, c, d, e), f, vs, SixNodes(a, b, c, d, e, f));
    Regroup([a, b, c, d, e], f, vs);
    assert [a, b, c, d, e] + [f] == [a, b, c, d, e, f];
  }

  /** Inserting 20, 10, 30, 40, 50, 60, 5 ends normally, but 5 is red below the red 10: case 3
      recolours around a black parent. */
  lemma TestRedUnderRed()
    ensures var r := Run(Empty(), [20, 10, 30, 40, 50, 60, 5]);
      && r == Inserted(State(Fork(Fork(Leaf(6), 1, Nil), 0, Fork(Leaf(2), 3, Fork(Nil, 4, Leaf(5)))),
                             [20, 10, 30, 40, 50, 60, 5], [BLACK, RED, BLACK, BLACK, BLACK, RED, RED]))
      && !NoRedRed(r.after.shape, r.after.colour)
  {
    var s := State(Fork(Fork(Leaf(6), 1, Nil), 0, Fork(Leaf(2), 3, Fork(Nil, 4, Leaf(5)))),
                   [20, 10, 30, 40, 50, 60, 5], [BLACK, RED, BLACK, BLACK, BLACK, RED, RED]);
    RunSix(20, 10, 30, 40, 50, 60, [5]);
    assert [20, 10, 30, 40, 50, 60] + [5] == [20, 10, 30, 40, 50, 60, 5];
    InsertSeventh(20, 10, 30, 40, 50, 60, 5);
    RunStep(SixNodes(20, 10, 30, 40, 50, 60), 5, [], s);
    assert [5] + [] == [5];
    RedBelowRed();
  }

  lemma RedBelowRed()
    ensures !NoRedRed(Fork(Fork(Leaf(6), 1, Nil), 0, Fork(Leaf(2), 3, Fork(Nil, 4, Leaf(5)))),
                      [BLACK, RED, BLACK, BLACK, BLACK, RED, RED])
  {
    var C := [BLACK, RED, BLACK, BLACK, BLACK, RED, RED];
    assert !NoRedRed(Fork(Leaf(6), 1, Nil), C);
  }
}
