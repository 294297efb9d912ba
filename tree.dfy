/** The RedBlackTree class.

    Java nodes are modelled as slots of an arena: slot i holds the value data[i], the colour
    blackHeight[i] (0 red, 1 black) and the three references of the node's context array,
    parentOf[i], leftOf[i] and rightOf[i]; NIL (-1) is the null reference. A new node takes
    the next free slot. The ghost field shape is the tree the references describe. */
module RedBlack {
  import opened Shapes
  import opened Links
  import opened Rotation
  import opened Rebalance
  import opened Search
  import Model

  /** The results of insert: true, IllegalArgumentException for a duplicate value, or the
      NullPointerException the fix-up can run into. */
  datatype InsertResult = Inserted | DuplicateValue | NullDereference

  /** The results of remove: true, or IllegalArgumentException when the value is absent. */
  datatype RemoveResult = Removed | NotFound

  /** The results of findMinOfRightSubtree: the successor, IllegalArgumentException for a node
      without children, or a NullPointerException (a null node, or a node with only a left child). */
  datatype MinResult = Found(slot: int) | NoChildren | NullDereferenceInMin

  class RedBlackTree {
    var data: seq<int>
    var blackHeight: seq<int>
    var parentOf: seq<int>
    var leftOf: seq<int>
    var rightOf: seq<int>
    var root: int
    var size: int
    ghost var shape: Shape

    /** The references describe shape: every slot has all its fields, the slots of the tree
        are distinct, each has the links its position demands, and root is the top. */
    ghost predicate WellLinked()
      reads this
    {
      && |blackHeight| == |data| && |parentOf| == |data| && |leftOf| == |data| && |rightOf| == |data|
      && Distinct(shape) && Stored(shape, data)
      && Linked(shape, NIL, parentOf, leftOf, rightOf)
      && root == Top(shape)
    }

    /** The class invariant: well linked, size counts the nodes, the values are in strictly
        increasing in-order, and every colour is red or black. */
    ghost predicate Valid()
      reads this
    {
      && WellLinked()
      && size == |InOrder(shape)|
      && Sorted(Keys(shape, data))
      && Binary(blackHeight)
    }

    /** The tree state as the functions of Model see it. */
    ghost function State(): Model.State
      reads this
    {
      Model.State(shape, data, blackHeight)
    }

    /** The shape and the colours, the part of the state the insert fix-up works on. */
    ghost function Paint(): Painted
      reads this
    {
      Painted(shape, blackHeight)
    }

    /** The values of the tree in order. */
    ghost function Contents(): seq<int>
      reads this
    {
      Keys(shape, data)
    }

    constructor ()
      ensures Valid() && shape == Nil && size == 0
      ensures State() == Model.State(Nil, [], [])
    {
      data, blackHeight := [], [];
      parentOf, leftOf, rightOf := [], [], [];
      root, size := NIL, 0;
      shape := Nil;
    }

    /** size(): the number of values in the tree. */
    function Size(): (n: int)
      reads this
      requires Valid()
      ensures n == |Contents()| && n >= 0
    {
      size
    }

    /** isEmpty(): whether size() is 0, which is exactly when the tree has no node. */
    function IsEmpty(): (b: bool)
      reads this
      requires Valid()
      ensures b <==> shape == Nil
      ensures b <==> Contents() == []
    {
      Size() == 0
    }

    // -------------------------------------------------------------------------
    // Accessors

    /** parent(node): the node's parent reference. */
    function Parent(x: int): (p: int)
      reads this
      requires WellLinked() && x in Ids(shape)
      ensures p == Par(shape, x)
      ensures p != NIL ==> p in Ids(shape)
    {
      LinkedFacts(shape, NIL, parentOf, leftOf, rightOf, x);
      ParDepth(shape, x);
      parentOf[x]
    }

    /** Node.isLeftChild: the node has a parent whose left reference is the node. */
    predicate IsLeftChild(x: int)
      reads this
      requires WellLinked() && x in Ids(shape)
      ensures IsLeftChild(x) <==> Rebalance.IsLeftChild(shape, x)
    {
      Parent(x) != NIL && LeftRef(Parent(x)) == x
    }

    /** Node.isRightChild: the node has a parent whose right reference is the node. */
    predicate IsRightChild(x: int)
      reads this
      requires WellLinked() && x in Ids(shape)
      ensures IsRightChild(x) <==> Rebalance.IsRightChild(shape, x)
    {
      Parent(x) != NIL && RightRef(Parent(x)) == x
    }

    /** The left reference (context[1]) of a node. */
    function LeftRef(x: int): (c: int)
      reads this
      requires WellLinked() && x in Ids(shape)
      ensures c == LeftOf(shape, x)
      ensures c != NIL ==> c in Ids(shape) && Par(shape, c) == x
    {
      LinkedFacts(shape, NIL, parentOf, leftOf, rightOf, x);
      ChildIds(shape, x);
      assert leftOf[x] != NIL ==> leftOf[x] in Ids(shape) && Par(shape, leftOf[x]) == x by {
        if leftOf[x] != NIL { ChildPar(shape, x, leftOf[x]); }
      }
      leftOf[x]
    }

    /** The right reference (context[2]) of a node. */
    function RightRef(x: int): (c: int)
      reads this
      requires WellLinked() && x in Ids(shape)
      ensures c == RightOf(shape, x)
      ensures c != NIL ==> c in Ids(shape) && Par(shape, c) == x
    {
      LinkedFacts(shape, NIL, parentOf, leftOf, rightOf, x);
      ChildIds(shape, x);
      assert rightOf[x] != NIL ==> rightOf[x] in Ids(shape) && Par(shape, rightOf[x]) == x by {
        if rightOf[x] != NIL { ChildPar(shape, x, rightOf[x]); }
      }
      rightOf[x]
    }

    /** grandparent(node): the parent's parent (the Java code dereferences the parent). */
    function Grandparent(x: int): (g: int)
      reads this
      requires WellLinked() && x in Ids(shape) && Parent(x) != NIL
      ensures g == Rebalance.Grandparent(shape, x)
      ensures g != NIL ==> g in Ids(shape)
    {
      Parent(Parent(x))
    }

    /** uncle(node): the grandparent's other child (the Java code dereferences the grandparent). */
    function Uncle(x: int): (u: int)
      reads this
      requires WellLinked() && x in Ids(shape) && Parent(x) != NIL && Grandparent(x) != NIL
      ensures u == Rebalance.Uncle(shape, x)
      ensures u != NIL ==> u in Ids(shape)
    {
      if IsLeftChild(Parent(x)) then RightRef(Grandparent(x)) else LeftRef(Grandparent(x))
    }

    /** The colour of a node. */
    function Colour(x: int): (c: int)
      reads this
      requires WellLinked() && x in Ids(shape)
      ensures c == Get(blackHeight, x)
      ensures Binary(blackHeight) ==> c == RED || c == BLACK
    {
      blackHeight[x]
    }

    // -------------------------------------------------------------------------
    // rotate and toggleColorHelper

    /** rotate(child, parent): a right rotation when child is the left child of parent, a left
        rotation when it is the right child; IllegalArgumentException (ok false, nothing
        changes) when either is null or they are not related that way. */
    method Rotate(c: int, p: int) returns (ok: bool)
      requires WellLinked()
      requires c == NIL || c in Ids(shape)
      requires p == NIL || p in Ids(shape)
      modifies this
      ensures WellLinked()
      ensures ok <==> p != NIL && ChildOf(old(shape), c, p)
      ensures ok ==> shape == RotateShape(old(shape), c, p)
      ensures !ok ==> shape == old(shape) && root == old(root)
      ensures !ok ==> parentOf == old(parentOf) && leftOf == old(leftOf) && rightOf == old(rightOf)
      ensures data == old(data) && blackHeight == old(blackHeight) && size == old(size)
    {
      if c == NIL || p == NIL {
        return false;
      }
      if !(leftOf[p] == c || rightOf[p] == c) {
        LinkedFacts(shape, NIL, parentOf, leftOf, rightOf, p);
        return false;
      }
      LinkedFacts(shape, NIL, parentOf, leftOf, rightOf, p);
      ghost var t, P, L, R := shape, parentOf, leftOf, rightOf;
      RotationSlots(t, c, p, P, L, R);
      if parentOf[c] != NIL && leftOf[parentOf[c]] == c {
        RotateRight(c, p);
      } else if parentOf[c] != NIL && rightOf[parentOf[c]] == c {
        RotateLeft(c, p);
      } else {
        assert false;
      }
      assert Rewired(t, c, p, P, L, R, parentOf, leftOf, rightOf);
      RotateLinks(t, c, p, P, L, R, parentOf, leftOf, rightOf);
      RotateFacts(t, c, p);
      shape := RotateShape(t, c, p);
      return true;
    }

    /** The right-rotation branch of rotate: c, the left child of p, takes p's place. */
    method RotateRight(c: int, p: int)
      requires |parentOf| == |leftOf| == |rightOf| && Slots(shape, c, p, parentOf, leftOf, rightOf)
      requires LeftOf(shape, p) == c && (root == p <==> Par(shape, p) == NIL)
      modifies this
      ensures Rewired(old(shape), c, p, old(parentOf), old(leftOf), old(rightOf), parentOf, leftOf, rightOf)
      ensures root == (if old(root) == p then c else old(root))
      ensures shape == old(shape) && data == old(data) && blackHeight == old(blackHeight) && size == old(size)
    {
      ghost var P, L, R := parentOf, leftOf, rightOf;
      if root == p {
        var inner := rightOf[c];
        rightOf := rightOf[c := p];
        root := c;
        parentOf := parentOf[c := NIL];
        parentOf := parentOf[p := c];
        leftOf := leftOf[p := inner];
        if inner != NIL {
          parentOf := parentOf[inner := p];
        }
      } else {
        var inner := rightOf[c];
        var grand := parentOf[p];
        rightOf := rightOf[c := p];
        if parentOf[p] != NIL && leftOf[parentOf[p]] == p {
          leftOf := leftOf[grand := c];
        } else if parentOf[p] != NIL && rightOf[parentOf[p]] == p {
          rightOf := rightOf[grand := c];
        }
        parentOf := parentOf[c := grand];
        parentOf := parentOf[p := c];
        leftOf := leftOf[p := inner];
        if inner != NIL {
          parentOf := parentOf[inner := p];
        }
      }
      RewiredUpdates(shape, c, p, P, L, R, parentOf, leftOf, rightOf);
    }

    /** The left-rotation branch of rotate: c, the right child of p, takes p's place. */
    method RotateLeft(c: int, p: int)
      requires |parentOf| == |leftOf| == |rightOf| && Slots(shape, c, p, parentOf, leftOf, rightOf)
      requires LeftOf(shape, p) != c && (root == p <==> Par(shape, p) == NIL)
      modifies this
      ensures Rewired(old(shape), c, p, old(parentOf), old(leftOf), old(rightOf), parentOf, leftOf, rightOf)
      ensures root == (if old(root) == p then c else old(root))
      ensures shape == old(shape) && data == old(data) && blackHeight == old(blackHeight) && size == old(size)
    {
      ghost var P, L, R := parentOf, leftOf, rightOf;
      if root == p {
        var inner := leftOf[c];
        leftOf := leftOf[c := p];
        root := c;
        parentOf := parentOf[c := NIL];
        parentOf := parentOf[p := c];
        rightOf := rightOf[p := inner];
        if inner != NIL {
          parentOf := parentOf[inner := p];
        }
      } else {
        var inner := leftOf[c];
        var grand := parentOf[p];
        leftOf := leftOf[c := p];
        if parentOf[p] != NIL && leftOf[parentOf[p]] == p {
          leftOf := leftOf[grand := c];
        } else if parentOf[p] != NIL && rightOf[parentOf[p]] == p {
          rightOf := rightOf[grand := c];
        }
        parentOf := parentOf[c := grand];
        parentOf := parentOf[p := c];
        rightOf := rightOf[p := inner];
        if inner != NIL {
          parentOf := parentOf[inner := p];
        }
      }
      RewiredUpdates(shape, c, p, P, L, R, parentOf, leftOf, rightOf);
    }

    /** toggleColorHelper(node): red becomes black and black becomes red; null is skipped. */
    method ToggleColor(x: int)
      requires WellLinked() && (x == NIL || x in Ids(shape))
      modifies this
      ensures WellLinked() && blackHeight == Toggle(old(blackHeight), x)
      ensures shape == old(shape) && data == old(data) && size == old(size)
      ensures parentOf == old(parentOf) && leftOf == old(leftOf) && rightOf == old(rightOf)
      ensures root == old(root)
    {
      if x != NIL && blackHeight[x] == RED {
        blackHeight := blackHeight[x := BLACK];
      } else if x != NIL && blackHeight[x] == BLACK {
        blackHeight := blackHeight[x := RED];
      }
    }

    // -------------------------------------------------------------------------
    // The insert fix-up

    /** The body of a case-1 branch of enforceCaseOneHelper: rotate the parent of x over the
        grandparent, then the grandparent takes the parent's old colour and the parent the
        grandparent's. */
    method SwapAndRotate(x: int)
      requires WellLinked() && x in Ids(shape) && Outward(shape, x)
      modifies this
      ensures WellLinked() && Paint() == SwapRotate(old(Paint()), x)
      ensures data == old(data) && size == old(size)
    {
      ghost var s := Paint();
      SwapRotateFacts(s, x);
      var parentBlackHeight := Colour(Parent(x));
      var grandparentBlackHeight := Colour(Grandparent(x));
      var tempNode := Grandparent(x);
      var ok := Rotate(Parent(x), Grandparent(x));
      RotateFacts(s.shape, Par(s.shape, x), tempNode);
      blackHeight := blackHeight[tempNode := parentBlackHeight];
      blackHeight := blackHeight[Parent(x) := grandparentBlackHeight];
    }

    /** enforceCaseOneHelper(x): the right-right branch, then the left-left branch, each taken
        when the uncle is absent or black. */
    method EnforceCaseOneHelper(x: int)
      requires WellLinked() && x in Ids(shape) && Par(shape, x) != NIL
      modifies this
      ensures WellLinked() && Paint() == CaseOne(old(Paint()), x)
      ensures data == old(data) && size == old(size)
    {
      ghost var s := Paint();
      if IsRightChild(Parent(x)) && (Uncle(x) == NIL || Colour(Uncle(x)) == BLACK) {
        if IsRightChild(x) {
          SwapAndRotate(x);
          SwapRotateFacts(s, x);
        }
      }
      if IsLeftChild(Parent(x)) && (Uncle(x) == NIL || Colour(Uncle(x)) == BLACK) {
        if IsLeftChild(x) {
          SwapAndRotate(x);
        }
      }
    }

    /** The body of a case-2 branch: rotate n over its parent, then case 1 on the old parent. */
    method RotateAndCaseOne(n: int)
      requires WellLinked() && n in Ids(shape) && Par(shape, n) != NIL
      modifies this
      ensures WellLinked() && Paint() == Straighten(old(Paint()), n)
      ensures data == old(data) && size == old(size)
    {
      ghost var t := shape;
      ParDepth(t, n);
      ParChild(t, n);
      var tempParent := Parent(n);
      var ok := Rotate(n, Parent(n));
      RotateFacts(t, n, tempParent);
      EnforceCaseOneHelper(tempParent);
    }

    /** The first part of enforceRBTreePropertiesAfterInsert: case 1 on n, then the two case-2
        tests, each taken when the uncle is absent or black. */
    method EnforceCasesOneAndTwo(n: int)
      requires WellLinked() && n in Ids(shape) && Par(shape, n) != NIL
      modifies this
      ensures WellLinked() && Paint() == Realign(old(Paint()), n)
      ensures data == old(data) && size == old(size) && Ids(shape) == old(Ids(shape))
    {
      ghost var s := Paint();
      EnforceCaseOneHelper(n);
      CaseOneFacts(s, n);
      RealignFacts(s, n);
      ghost var s1 := Paint();
      if IsRightChild(n) && IsLeftChild(Parent(n)) && (Uncle(n) == NIL || Colour(Uncle(n)) == BLACK) {
        RotateAndCaseOne(n);
        StraightenFacts(s1, n);
      }
      if IsLeftChild(n) && IsRightChild(Parent(n)) && (Uncle(n) == NIL || Colour(Uncle(n)) == BLACK) {
        RotateAndCaseOne(n);
      }
    }

    /** The recolouring of case 3: toggle the parent, the grandparent and the uncle of n. */
    method ToggleFamily(n: int)
      requires WellLinked() && n in Ids(shape) && Par(shape, n) != NIL
      requires Rebalance.Grandparent(shape, n) != NIL
      modifies this
      ensures WellLinked() && Paint() == Recolour(old(Paint()), n)
      ensures data == old(data) && size == old(size) && root == old(root)
      ensures parentOf == old(parentOf) && leftOf == old(leftOf) && rightOf == old(rightOf)
    {
      ToggleColor(Parent(n));
      ToggleColor(Grandparent(n));
      ToggleColor(Uncle(n));
    }

    /** enforceRBTreePropertiesAfterInsert(n): cases 1 and 2 when n has a parent, then the
        case-3 test and the blackening of the root. crashed reports the null dereference of
        the case-3 test, raised when case 2 has lifted n to the root. */
    method EnforceAfterInsert(n: int) returns (crashed: bool)
      requires WellLinked() && n in Ids(shape)
      modifies this
      ensures WellLinked() && data == old(data) && size == old(size) && Ids(shape) == old(Ids(shape))
      ensures crashed == FixUp(old(Paint()), n).Crashed?
      ensures Paint() == FixUp(old(Paint()), n).state
      decreases Depth(shape, n), 1
    {
      ghost var s := Paint();
      if Parent(n) != NIL {
        EnforceCasesOneAndTwo(n);
        RealignFacts(s, n);
        crashed := EnforceCaseThree(n);
      } else {
        blackHeight := blackHeight[root := BLACK];
        crashed := false;
      }
    }

    /** The rest of enforceRBTreePropertiesAfterInsert after cases 1 and 2: case 3 toggles the
        parent, grandparent and uncle when the uncle is red and recurses on the grandparent
        when it and its parent are both red; the root is blackened last. */
    method EnforceCaseThree(n: int) returns (crashed: bool)
      requires WellLinked() && n in Ids(shape)
      modifies this
      ensures WellLinked() && data == old(data) && size == old(size) && Ids(shape) == old(Ids(shape))
      ensures crashed == CaseThree(old(Paint()), n).Crashed?
      ensures Paint() == CaseThree(old(Paint()), n).state
      decreases Depth(shape, n), 0
    {
      ghost var s := Paint();
      if Parent(n) == NIL {
        // parent(redNode).isRightChild() dereferences null
        return true;
      }
      if (IsRightChild(Parent(n)) || IsLeftChild(Parent(n))) && Uncle(n) != NIL && Colour(Uncle(n)) == RED {
        ToggleFamily(n);
        RecolourFacts(s, n);
        ParDepth(shape, n);
        ParDepth(shape, Parent(n));
        ParDepth(shape, Grandparent(n));
        if root != Grandparent(n) && Grandparent(Grandparent(n)) != NIL {
          if Colour(Grandparent(n)) == RED && Colour(Parent(Grandparent(n))) == RED {
            crashed := EnforceAfterInsert(Grandparent(n));
            if crashed {
              return;
            }
          }
        }
      }
      assert n in Ids(shape);
      blackHeight := blackHeight[root := BLACK];
      crashed := false;
    }

    // -------------------------------------------------------------------------
    // insert

    /** new Node<>(data): the node takes the next slot, red, with null references. */
    method NewNode(v: int) returns (n: int)
      requires WellLinked()
      modifies this
      ensures n == old(|data|) && data == old(data) + [v] && blackHeight == old(blackHeight) + [RED]
      ensures parentOf == old(parentOf) + [NIL] && leftOf == old(leftOf) + [NIL] && rightOf == old(rightOf) + [NIL]
      ensures shape == old(shape) && root == old(root) && size == old(size)
      ensures WellLinked()
    {
      n := |data|;
      ghost var P, L, R := parentOf, leftOf, rightOf;
      data, blackHeight := data + [v], blackHeight + [RED];
      parentOf, leftOf, rightOf := parentOf + [NIL], leftOf + [NIL], rightOf + [NIL];
      assert parentOf[..|P|] == P && leftOf[..|L|] == L && rightOf[..|R|] == R;
      LinkedExtend(shape, NIL, P, L, R, parentOf, leftOf, rightOf);
    }

    /** A new node holding v becomes the left (or right) child of cur, where cur had none:
        current.context[1] (or [2]) = newNode; newNode.context[0] = current. */
    method AddChild(cur: int, v: int, left: bool) returns (n: int)
      requires WellLinked() && cur in Ids(shape)
      requires if left then LeftOf(shape, cur) == NIL else RightOf(shape, cur) == NIL
      modifies this
      ensures n == old(|data|) && data == old(data) + [v] && blackHeight == old(blackHeight) + [RED]
      ensures shape == Replace(old(shape), cur, Hang(Sub(old(shape), cur), n, left))
      ensures root == old(root) && size == old(size)
      ensures WellLinked()
    {
      ghost var t, P, L, R := shape, parentOf, leftOf, rightOf;
      LinkedFacts(t, NIL, P, L, R, cur);
      n := NewNode(v);
      if left {
        leftOf := leftOf[cur := n];
      } else {
        rightOf := rightOf[cur := n];
      }
      parentOf := parentOf[n := cur];
      LinkedHang(t, cur, n, left, P, L, R, parentOf, leftOf, rightOf);
      HangFresh(t, cur, n, left);
      shape := Replace(t, cur, Hang(Sub(t, cur), n, left));
    }

    /** insert into an empty tree: the new node becomes the root, size grows, and the fix-up
        runs from it. */
    method InsertRoot(v: int) returns (r: InsertResult)
      requires Valid() && shape == Nil
      modifies this
      ensures Valid()
      ensures var o := Model.Insert(old(State()), v);
        && !o.DuplicateValue? && (r == Inserted <==> o.Inserted?) && r != DuplicateValue
        && State() == o.after
    {
      Model.InsertPlaced(State(), v, Fork(Nil, |data|, Nil));
      var n := NewNode(v);
      root := n;
      shape := Fork(Nil, n, Nil);
      size := size + 1;
      var crashed := EnforceAfterInsert(n);
      return if crashed then NullDereference else Inserted;
    }

    /** The end of insert once the descent has found the free place below cur: the new node
        is hung there, size grows, and the fix-up runs from the new node. */
    method InsertBelow(cur: int, v: int, left: bool) returns (r: InsertResult)
      requires Valid() && cur in Ids(shape)
      requires if left then LeftOf(shape, cur) == NIL else RightOf(shape, cur) == NIL
      requires Place(shape, data, v, |data|) == Some(Replace(shape, cur, Hang(Sub(shape, cur), |data|, left)))
      modifies this
      ensures Valid()
      ensures var o := Model.Insert(old(State()), v);
        && !o.DuplicateValue? && (r == Inserted <==> o.Inserted?) && r != DuplicateValue
        && State() == o.after
    {
      Model.InsertPlaced(State(), v, Replace(shape, cur, Hang(Sub(shape, cur), |data|, left)));
      var n := AddChild(cur, v, left);
      size := size + 1;
      var crashed := EnforceAfterInsert(n);
      return if crashed then NullDereference else Inserted;
    }

    /** insert(v): a new red node as the root of an empty tree, or as a leaf found by the
        search descent (IllegalArgumentException, nothing changed, when v is already there),
        then the fix-up from the new node. */
    method Insert(v: int) returns (r: InsertResult)
      requires Valid()
      modifies this
      ensures Valid()
      ensures var o := Model.Insert(old(State()), v);
        && (r == DuplicateValue <==> o.DuplicateValue?)
        && (r == Inserted <==> o.Inserted?)
        && (if o.DuplicateValue? then State() == old(State()) else State() == o.after)
      ensures r == DuplicateValue ==> unchanged(this)
    {
      var n := |data|;
      ghost var t := shape;
      PlaceFacts(shape, data, v);
      if root == NIL {
        r := InsertRoot(v);
        return;
      }
      var cur := root;
      while true
        invariant cur in Ids(shape) && unchanged(this)
        invariant Place(shape, data, v, n) == Graft(shape, cur, Place(Sub(shape, cur), data, v, n))
        decreases Sub(shape, cur)
      {
        SubFacts(shape, cur);
        LinkedFacts(shape, NIL, parentOf, leftOf, rightOf, cur);
        if v == data[cur] {
          return DuplicateValue;
        } else if v < data[cur] {
          if leftOf[cur] == NIL {
            r := InsertBelow(cur, v, true);
            return;
          } else {
            PlaceStep(shape, data, v, n, cur);
            ChildSub(shape, cur);
            cur := leftOf[cur];
          }
        } else {
          if rightOf[cur] == NIL {
            r := InsertBelow(cur, v, false);
            return;
          } else {
            PlaceStep(shape, data, v, n, cur);
            ChildSub(shape, cur);
            cur := rightOf[cur];
          }
        }
      }
    }

    // -------------------------------------------------------------------------
    // Searching

    /** findNodeWithData(v): the descent from the root, left on a smaller value and right on
        a larger one; NIL when it falls off the tree. */
    method FindNodeWithData(v: int) returns (x: int)
      requires Valid()
      ensures x == Find(shape, data, v)
      ensures x == NIL <==> v !in Contents()
      ensures x != NIL ==> x in Ids(shape) && data[x] == v
    {
      FindCorrect(shape, data, v);
      var current := root;
      while current != NIL
        invariant current == NIL || current in Ids(shape)
        invariant Find(shape, data, v) == Find(Sub(shape, current), data, v)
        decreases Sub(shape, current)
      {
        SubFacts(shape, current);
        ChildSubs(shape, current);
        LinkedFacts(shape, NIL, parentOf, leftOf, rightOf, current);
        ChildIds(shape, current);
        if v == data[current] {
          return current;
        } else if v < data[current] {
          current := leftOf[current];
        } else {
          current := rightOf[current];
        }
      }
      SubMissing(shape, NIL);
      return NIL;
    }

    /** contains(v): whether the descent finds a node holding v. */
    method Contains(v: int) returns (b: bool)
      requires Valid()
      ensures b <==> v in Contents()
    {
      var x := FindNodeWithData(v);
      return x != NIL;
    }

    /** findMinOfRightSubtree(x): IllegalArgumentException for a node without children; a
        null pointer dereference when x is NIL or has only a left child; otherwise one step
        right and then left as long as possible. For a node with two children that is the
        in-order successor. */
    method FindMinOfRightSubtree(x: int) returns (m: MinResult)
      requires WellLinked() && (x == NIL || x in Ids(shape))
      ensures x == NIL ==> m == NullDereferenceInMin
      ensures x != NIL && LeftOf(shape, x) == NIL && RightOf(shape, x) == NIL ==> m == NoChildren
      ensures x != NIL && LeftOf(shape, x) != NIL && RightOf(shape, x) == NIL ==> m == NullDereferenceInMin
      ensures x != NIL && RightOf(shape, x) != NIL ==>
        && m == Found(Leftmost(Sub(shape, x).right))
        && m.slot in Ids(Sub(shape, x)) && LeftOf(shape, m.slot) == NIL
      ensures x != NIL && TwoChildren(shape, x) ==>
        && m == Found(Successor(shape, x))
        && Rank(shape, x) + 1 < |InOrder(shape)| && InOrder(shape)[Rank(shape, x) + 1] == m.slot
    {
      if x == NIL {
        return NullDereferenceInMin;
      }
      ChildSubs(shape, x);
      ChildIds(shape, x);
      LinkedFacts(shape, NIL, parentOf, leftOf, rightOf, x);
      if leftOf[x] == NIL && rightOf[x] == NIL {
        return NoChildren;
      }
      var current := rightOf[x];
      if current == NIL {
        // current.context[1] dereferences null
        return NullDereferenceInMin;
      }
      ghost var goal := Leftmost(Sub(shape, x).right);
      while true
        invariant current in Ids(shape) && Leftmost(Sub(shape, current)) == goal
        decreases Sub(shape, current)
      {
        SubFacts(shape, current);
        ChildSubs(shape, current);
        LinkedFacts(shape, NIL, parentOf, leftOf, rightOf, current);
        if leftOf[current] == NIL {
          LeftmostFacts(Sub(shape, x).right);
          if TwoChildren(shape, x) {
            SuccessorPosition(shape, x);
          }
          return Found(current);
        } else {
          ChildIds(shape, current);
          current := leftOf[current];
        }
      }
    }

    // -------------------------------------------------------------------------
    // Removing

    /** replaceNode(x, r): r (a child of x, or NIL) takes x's place, as the new root when x has
        no parent and otherwise below x's parent, on the side where x was; x's own references
        are left as they were. NullPointerException when x is NIL. */
    method ReplaceNode(x: int, r: int) returns (ok: bool)
      requires WellLinked() && (x == NIL || x in Ids(shape))
      requires x != NIL ==> r == NIL || LeftOf(shape, x) == r || RightOf(shape, x) == r
      modifies this
      ensures ok <==> x != NIL
      ensures !ok ==> unchanged(this)
      ensures ok ==> shape == Replace(old(shape), x, Sub(old(shape), r))
      ensures WellLinked() && data == old(data) && blackHeight == old(blackHeight) && size == old(size)
    {
      if x == NIL {
        return false;
      }
      ghost var t, P, L, R := shape, parentOf, leftOf, rightOf;
      LinkedFacts(t, NIL, P, L, R, x);
      ParDepth(t, x);
      if r != NIL {
        ChildPar(t, x, r);
        LinkedFacts(t, NIL, P, L, R, r);
      }
      var p := parentOf[x];
      if p == NIL {
        if r != NIL {
          parentOf := parentOf[r := NIL];
        }
        root := r;
      } else {
        LinkedFacts(t, NIL, P, L, R, p);
        if r != NIL {
          parentOf := parentOf[r := p];
        }
        if rightOf[p] == x {
          rightOf := rightOf[p := r];
        } else {
          leftOf := leftOf[p := r];
        }
      }
      ghost var s := Sub(t, r);
      LinkedLift(t, x, r, s, Replace(t, x, s), P, L, R, parentOf, leftOf, rightOf);
      LiftFacts(t, x, r, s);
      shape := Replace(t, x, s);
      assert Stored(shape, data);
      assert root == Top(shape);
      return true;
    }

    /** remove(v): IllegalArgumentException when v is absent; otherwise the node holding v is
        unlinked (Unlink). No colours change. */
    method Remove(v: int) returns (r: RemoveResult)
      requires Valid()
      modifies this
      ensures Valid()
      ensures var o := Model.Remove(old(State()), v);
        && (r == NotFound <==> o.NotFound?)
        && (o.NotFound? ==> unchanged(this))
        && (o.Removed? ==> State() == o.after)
    {
      var x := FindNodeWithData(v);
      if x == NIL {
        return NotFound;
      }
      UnlinkFacts(shape, data, x);
      Unhook(x);
      size := size - 1;
      return Removed;
    }

    /** The unlinking step of remove for the node x holding the value: a node with two children
        takes its successor's value and the successor is replaced by its right child; any other
        node is replaced by its right child, its left child or nothing, in that order. */
    method Unhook(x: int)
      requires WellLinked() && x in Ids(shape)
      modifies this
      ensures WellLinked()
      ensures (shape, data) == Unlink(old(shape), old(data), x)
      ensures blackHeight == old(blackHeight) && size == old(size)
    {
      ghost var t, D := shape, data;
      SubFacts(t, x);
      ChildSubs(t, x);
      LinkedFacts(t, NIL, parentOf, leftOf, rightOf, x);
      var hasRightChild := rightOf[x] != NIL;
      var hasLeftChild := leftOf[x] != NIL;
      var ok: bool;
      if hasRightChild && hasLeftChild {
        var m := FindMinOfRightSubtree(x);
        if !m.Found? {
          assert false;
        } else {
          var successor := m.slot;
          SubFacts(t, successor);
          ChildSubs(t, successor);
          LinkedFacts(t, NIL, parentOf, leftOf, rightOf, successor);
          data := data[x := data[successor]];
          if rightOf[successor] == NIL {
            ok := ReplaceNode(successor, NIL);
          } else {
            ok := ReplaceNode(successor, rightOf[successor]);
          }
        }
      } else if hasRightChild {
        ok := ReplaceNode(x, rightOf[x]);
      } else if hasLeftChild {
        ok := ReplaceNode(x, leftOf[x]);
      } else {
        ok := ReplaceNode(x, NIL);
      }
    }
  }
}
