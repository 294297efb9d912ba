/** The shape of the node graph: which arena slot sits at which position of the tree.

    Nodes of the Java tree are modelled as slots of an arena (see RedBlackTree in tree.dfy);
    a Shape is the tree drawn over those slot numbers, without links, values or colours. */
module Shapes {

  /** The slot number that stands for Java's null reference. */
  const NIL: int := -1

  datatype Shape = Nil | Fork(left: Shape, id: nat, right: Shape)

  /** Slot x of a per-slot sequence (values, colours); 0 for NIL or a slot out of range. */
  function Get(S: seq<int>, x: int): int {
    if 0 <= x < |S| then S[x] else 0
  }

  /** S with slot x set to w; no change for NIL or a slot out of range. */
  function Put(S: seq<int>, x: int, w: int): seq<int> {
    if 0 <= x < |S| then S[x := w] else S
  }

  /** The slot at the top of t, NIL for the empty tree. */
  function Top(t: Shape): int {
    if t.Nil? then NIL else t.id
  }

  function Ids(t: Shape): set<nat> {
    match t
    case Nil => {}
    case Fork(a, x, b) => Ids(a) + {x} + Ids(b)
  }

  /** No slot occurs twice in the tree. */
  ghost predicate Distinct(t: Shape) {
    match t
    case Nil => true
    case Fork(a, x, b) =>
      Distinct(a) && Distinct(b) && x !in Ids(a) && x !in Ids(b) && Ids(a) !! Ids(b)
  }

  /** The slots in in-order (left subtree, node, right subtree). */
  function InOrder(t: Shape): seq<int> {
    match t
    case Nil => []
    case Fork(a, x, b) => InOrder(a) + [x] + InOrder(b)
  }

  /** The subtree whose top is x; Nil when x is not in t. */
  function Sub(t: Shape, x: int): Shape {
    match t
    case Nil => Nil
    case Fork(a, y, b) =>
      if x == y then t else if x in Ids(a) then Sub(a, x) else Sub(b, x)
  }

  /** The parent slot of x; NIL when x is the top of t or not in t. */
  function Par(t: Shape, x: int): int {
    match t
    case Nil => NIL
    case Fork(a, y, b) =>
      if x == y then NIL
      else if x in Ids(a) then (if x == Top(a) then y else Par(a, x))
      else if x in Ids(b) then (if x == Top(b) then y else Par(b, x))
      else NIL
  }

  /** The number of edges from the top of t down to x. */
  function Depth(t: Shape, x: int): nat {
    match t
    case Nil => 0
    case Fork(a, y, b) =>
      if x == y then 0
      else if x in Ids(a) then 1 + Depth(a, x)
      else if x in Ids(b) then 1 + Depth(b, x)
      else 0
  }

  /** The left child slot of x (NIL when x has none or is not in t). */
  function LeftOf(t: Shape, x: int): int {
    var s := Sub(t, x);
    if s.Nil? then NIL else Top(s.left)
  }

  /** The right child slot of x (NIL when x has none or is not in t). */
  function RightOf(t: Shape, x: int): int {
    var s := Sub(t, x);
    if s.Nil? then NIL else Top(s.right)
  }

  /** t with the subtree whose top is x replaced by s. */
  function Replace(t: Shape, x: int, s: Shape): Shape {
    match t
    case Nil => Nil
    case Fork(a, y, b) =>
      if x == y then s
      else if x in Ids(a) then Fork(Replace(a, x, s), y, b)
      else if x in Ids(b) then Fork(a, y, Replace(b, x, s))
      else t
  }

  /** The slots that come before the subtree at x in in-order. */
  function Before(t: Shape, x: int): seq<int> {
    match t
    case Nil => []
    case Fork(a, y, b) =>
      if x == y then []
      else if x in Ids(a) then Before(a, x)
      else if x in Ids(b) then InOrder(a) + [y] + Before(b, x)
      else []
  }

  /** The slots that come after the subtree at x in in-order. */
  function After(t: Shape, x: int): seq<int> {
    match t
    case Nil => []
    case Fork(a, y, b) =>
      if x == y then []
      else if x in Ids(a) then After(a, x) + [y] + InOrder(b)
      else if x in Ids(b) then After(b, x)
      else []
  }

  /** s with a new leaf n as the left (or the right) child of its top. */
  function Hang(s: Shape, n: nat, left: bool): Shape {
    match s
    case Nil => Nil
    case Fork(a, x, b) =>
      if left then Fork(Fork(Nil, n, Nil), x, b) else Fork(a, x, Fork(Nil, n, Nil))
  }

  /** The slot reached by going left from the top of t as long as possible. */
  function Leftmost(t: Shape): int
    decreases t
  {
    match t
    case Nil => NIL
    case Fork(a, x, _) => if a.Nil? then x else Leftmost(a)
  }

  // ---------------------------------------------------------------------------
  // Lemmas

  lemma {:induction false} SubFacts(t: Shape, x: int)
    requires Distinct(t) && x in Ids(t)
    ensures Sub(t, x).Fork? && Sub(t, x).id == x
    ensures Ids(Sub(t, x)) <= Ids(t)
    ensures Distinct(Sub(t, x))
  {
    match t
    case Fork(a, y, b) =>
      if x == y {
      } else if x in Ids(a) {
        SubFacts(a, x);
      } else {
        SubFacts(b, x);
      }
  }

  /** Inside the subtree at x, the subtree at y is the same as in the whole tree. */
  lemma {:induction false} SubSub(t: Shape, x: int, y: int)
    requires Distinct(t) && x in Ids(t) && y in Ids(Sub(t, x))
    ensures Sub(t, y) == Sub(Sub(t, x), y)
  {
    match t
    case Fork(a, z, b) =>
      if x == z {
      } else if x in Ids(a) {
        SubFacts(a, x);
        SubSub(a, x, y);
      } else {
        SubFacts(b, x);
        SubSub(b, x, y);
      }
  }

  /** Below the top, no subtree contains the top of t. */
  lemma TopNotInSub(t: Shape, x: int)
    requires Distinct(t) && x in Ids(t) && x != Top(t)
    ensures Top(t) !in Ids(Sub(t, x))
  {
    match t
    case Fork(a, y, b) =>
      if x in Ids(a) {
        SubFacts(a, x);
      } else {
        SubFacts(b, x);
      }
  }

  lemma {:induction false} ReplaceSelf(t: Shape, x: int)
    ensures Replace(t, x, Sub(t, x)) == t
  {
    match t
    case Nil =>
    case Fork(a, y, b) =>
      if x == y {
      } else if x in Ids(a) {
        ReplaceSelf(a, x);
      } else if x in Ids(b) {
        ReplaceSelf(b, x);
      }
  }

  lemma {:induction false} ReplaceIds(t: Shape, x: int, s: Shape)
    requires Distinct(t) && x in Ids(t)
    ensures Ids(Replace(t, x, s)) == (Ids(t) - Ids(Sub(t, x))) + Ids(s)
  {
    match t
    case Fork(a, y, b) =>
      if x == y {
      } else if x in Ids(a) {
        ReplaceIds(a, x, s);
        SubFacts(a, x);
      } else {
        ReplaceIds(b, x, s);
        SubFacts(b, x);
      }
  }

  /** Replacing a subtree by a rearrangement of its own slots keeps the slots distinct. */
  lemma {:induction false} ReplaceDistinct(t: Shape, x: int, s: Shape)
    requires Distinct(t) && x in Ids(t) && Distinct(s) && Ids(s) == Ids(Sub(t, x))
    ensures Distinct(Replace(t, x, s)) && Ids(Replace(t, x, s)) == Ids(t)
  {
    match t
    case Fork(a, y, b) =>
      if x == y {
      } else if x in Ids(a) {
        SubFacts(a, x);
        ReplaceDistinct(a, x, s);
      } else {
        SubFacts(b, x);
        ReplaceDistinct(b, x, s);
      }
  }

  /** The in-order sequence splits around the subtree at x, and a replacement takes its place. */
  lemma {:induction false} ReplaceInOrder(t: Shape, x: int, s: Shape)
    requires x in Ids(t)
    ensures InOrder(Replace(t, x, s)) == Before(t, x) + InOrder(s) + After(t, x)
  {
    match t
    case Fork(a, y, b) =>
      if x == y {
        assert [] + InOrder(s) + [] == InOrder(s);
      } else if x in Ids(a) {
        ReplaceInOrder(a, x, s);
        AssocLeft(Before(a, x), InOrder(s), After(a, x), [y] + InOrder(b));
      } else {
        ReplaceInOrder(b, x, s);
        AssocRight(InOrder(a) + [y], Before(b, x), InOrder(s), After(b, x));
      }
  }

  lemma AssocLeft(p: seq<int>, m: seq<int>, q: seq<int>, r: seq<int>)
    ensures (p + m + q) + r == p + m + (q + r)
  {
  }

  lemma AssocRight(p: seq<int>, m: seq<int>, q: seq<int>, r: seq<int>)
    ensures p + (m + q + r) == (p + m) + q + r
  {
  }

  lemma SplitInOrder(t: Shape, x: int)
    requires x in Ids(t)
    ensures InOrder(t) == Before(t, x) + InOrder(Sub(t, x)) + After(t, x)
  {
    ReplaceSelf(t, x);
    ReplaceInOrder(t, x, Sub(t, x));
  }

  /** Parents and depths inside a replacement subtree. */
  lemma {:induction false} ReplacePar(t: Shape, x: int, s: Shape, y: int)
    requires Distinct(t) && x in Ids(t) && Ids(s) == Ids(Sub(t, x)) && y in Ids(s)
    ensures Par(Replace(t, x, s), y) == (if y == Top(s) then Par(t, x) else Par(s, y))
    ensures Depth(Replace(t, x, s), y) == Depth(t, x) + Depth(s, y)
  {
    match t
    case Fork(a, z, b) =>
      if x == z {
      } else if x in Ids(a) {
        SubFacts(a, x);
        ReplaceIds(a, x, s);
        ReplacePar(a, x, s, y);
        if x != Top(a) {
          TopNotInSub(a, x);
        }
      } else {
        SubFacts(b, x);
        ReplaceIds(b, x, s);
        ReplacePar(b, x, s, y);
        if x != Top(b) {
          TopNotInSub(b, x);
        }
      }
  }

  /** Parents and depths inside the subtree at x, measured in the whole tree. */
  lemma SubPar(t: Shape, x: int, y: int)
    requires Distinct(t) && x in Ids(t) && y in Ids(Sub(t, x))
    ensures Par(t, y) == (if y == x then Par(t, x) else Par(Sub(t, x), y))
    ensures Depth(t, y) == Depth(t, x) + Depth(Sub(t, x), y)
  {
    SubFacts(t, x);
    ReplaceSelf(t, x);
    ReplacePar(t, x, Sub(t, x), y);
  }

  /** Every slot but the top has a parent, one level up. */
  lemma {:induction false} ParDepth(t: Shape, x: int)
    requires Distinct(t) && x in Ids(t)
    ensures (Par(t, x) == NIL) == (x == Top(t))
    ensures Par(t, x) != NIL ==> Par(t, x) in Ids(t) && Depth(t, Par(t, x)) + 1 == Depth(t, x)
  {
    match t
    case Fork(a, y, b) =>
      if x == y {
      } else if x in Ids(a) {
        ParDepth(a, x);
      } else {
        ParDepth(b, x);
      }
  }

  /** A slot's parent has that slot as its left or right child. */
  lemma {:induction false} ParChild(t: Shape, x: int)
    requires Distinct(t) && x in Ids(t) && Par(t, x) != NIL
    ensures LeftOf(t, Par(t, x)) == x || RightOf(t, Par(t, x)) == x
  {
    match t
    case Fork(a, y, b) =>
      if x in Ids(a) {
        if x != Top(a) {
          ParChild(a, x);
          ParDepth(a, x);
          SubFacts(a, Par(a, x));
        }
      } else {
        if x != Top(b) {
          ParChild(b, x);
          ParDepth(b, x);
          SubFacts(b, Par(b, x));
        }
      }
  }

  /** The children of x are the tops of the two subtrees under x. */
  lemma ChildSub(t: Shape, x: int)
    requires Distinct(t) && x in Ids(t)
    ensures Sub(t, x).Fork? && Sub(t, x).left.Fork? ==> Sub(t, LeftOf(t, x)) == Sub(t, x).left
    ensures Sub(t, x).Fork? && Sub(t, x).right.Fork? ==> Sub(t, RightOf(t, x)) == Sub(t, x).right
  {
    SubFacts(t, x);
    var s := Sub(t, x);
    if s.left.Fork? {
      SubSub(t, x, s.left.id);
    }
    if s.right.Fork? {
      SubSub(t, x, s.right.id);
    }
  }

  /** The subtree at a slot that is not in t is Nil. */
  lemma {:induction false} SubMissing(t: Shape, x: int)
    requires x !in Ids(t)
    ensures Sub(t, x) == Nil
  {
    match t
    case Nil =>
    case Fork(a, _, b) =>
      SubMissing(b, x);
  }

  /** The subtrees at the two children of x (Nil for a missing child) are those under x. */
  lemma ChildSubs(t: Shape, x: int)
    requires Distinct(t) && x in Ids(t)
    ensures Sub(t, x).Fork?
    ensures Sub(t, LeftOf(t, x)) == Sub(t, x).left && Sub(t, RightOf(t, x)) == Sub(t, x).right
  {
    SubFacts(t, x);
    ChildSub(t, x);
    SubMissing(t, NIL);
  }

  /** Children of a slot in t are slots of t (or NIL). */
  lemma ChildIds(t: Shape, x: int)
    requires Distinct(t) && x in Ids(t)
    ensures LeftOf(t, x) == NIL || LeftOf(t, x) in Ids(Sub(t, x)) - {x}
    ensures RightOf(t, x) == NIL || RightOf(t, x) in Ids(Sub(t, x)) - {x}
    ensures Ids(Sub(t, x)) <= Ids(t)
  {
    SubFacts(t, x);
  }

  /** A parent never lies inside the subtree of its child. */
  lemma {:induction false} ParNotInSub(t: Shape, x: int)
    requires Distinct(t) && x in Ids(t)
    ensures Par(t, x) !in Ids(Sub(t, x))
  {
    match t
    case Fork(a, y, b) =>
      if x == y {
      } else if x in Ids(a) {
        SubFacts(a, x);
        if x != Top(a) {
          ParNotInSub(a, x);
        }
      } else {
        SubFacts(b, x);
        if x != Top(b) {
          ParNotInSub(b, x);
        }
      }
  }

  /** A child of j has j as its parent. */
  lemma {:induction false} ChildPar(t: Shape, j: int, x: int)
    requires Distinct(t) && j in Ids(t) && x != NIL
    requires LeftOf(t, j) == x || RightOf(t, j) == x
    ensures x in Ids(t) && Par(t, x) == j
  {
    match t
    case Fork(a, y, b) =>
      if j == y {
      } else if j in Ids(a) {
        ChildPar(a, j, x);
      } else {
        ChildPar(b, j, x);
      }
  }

  lemma ReplaceTop(t: Shape, x: int, s: Shape)
    requires x in Ids(t)
    ensures Top(Replace(t, x, s)) == if x == Top(t) then Top(s) else Top(t)
  {
  }

  /** The two children of a node are different slots (unless both are missing). */
  lemma ChildrenDiffer(t: Shape, x: int)
    requires Distinct(t) && x in Ids(t)
    ensures LeftOf(t, x) == NIL || LeftOf(t, x) != RightOf(t, x)
  {
    SubFacts(t, x);
  }

  /** Replacing a subtree by one made of some of its own slots keeps the slots distinct. */
  lemma {:induction false} ReplaceShrink(t: Shape, x: int, s: Shape)
    requires Distinct(t) && x in Ids(t) && Distinct(s) && Ids(s) <= Ids(Sub(t, x))
    ensures Distinct(Replace(t, x, s))
  {
    match t
    case Fork(a, y, b) =>
      if x == y {
      } else if x in Ids(a) {
        SubFacts(a, x);
        ReplaceIds(a, x, s);
        ReplaceShrink(a, x, s);
      } else {
        SubFacts(b, x);
        ReplaceIds(b, x, s);
        ReplaceShrink(b, x, s);
      }
  }

  /** Replacing a subtree by one whose slots are new to the rest of the tree keeps the slots
      distinct. */
  lemma {:induction false} ReplaceFresh(t: Shape, x: int, s: Shape)
    requires Distinct(t) && x in Ids(t) && Distinct(s) && Ids(s) !! (Ids(t) - Ids(Sub(t, x)))
    ensures Distinct(Replace(t, x, s))
  {
    match t
    case Fork(a, y, b) =>
      if x == y {
      } else if x in Ids(a) {
        SubFacts(a, x);
        ReplaceIds(a, x, s);
        ReplaceFresh(a, x, s);
      } else {
        SubFacts(b, x);
        ReplaceIds(b, x, s);
        ReplaceFresh(b, x, s);
      }
  }

  /** Hanging a fresh leaf n below x, on a side where x has no child, adds exactly n. */
  lemma HangFresh(t: Shape, x: int, n: nat, left: bool)
    requires Distinct(t) && x in Ids(t) && n !in Ids(t)
    requires if left then LeftOf(t, x) == NIL else RightOf(t, x) == NIL
    ensures var t' := Replace(t, x, Hang(Sub(t, x), n, left));
      Distinct(t') && Ids(t') == Ids(t) + {n}
  {
    SubFacts(t, x);
    var S := Sub(t, x);
    assert if left then S.left == Nil else S.right == Nil;
    var s := Hang(S, n, left);
    assert Ids(s) == Ids(S) + {n};
    ReplaceIds(t, x, s);
    ReplaceFresh(t, x, s);
  }

  /** A replacement inside the subtree at x is a replacement inside the whole tree. */
  lemma {:induction false} ReplaceNested(t: Shape, x: int, y: int, s: Shape)
    requires Distinct(t) && x in Ids(t) && y in Ids(Sub(t, x))
    ensures Replace(t, x, Replace(Sub(t, x), y, s)) == Replace(t, y, s)
  {
    match t
    case Fork(a, z, b) =>
      if x == z {
      } else if x in Ids(a) {
        SubFacts(a, x);
        ReplaceNested(a, x, y, s);
      } else {
        SubFacts(b, x);
        ReplaceNested(b, x, y, s);
      }
  }

  /** No element occurs twice. */
  predicate Unique(xs: seq<int>) {
    forall i, j :: 0 <= i < j < |xs| ==> xs[i] != xs[j]
  }

  /** The in-order sequence lists exactly the slots of the tree, each once. */
  lemma {:induction false} InOrderIds(t: Shape)
    requires Distinct(t)
    ensures forall y :: y in InOrder(t) <==> y in Ids(t)
    ensures Unique(InOrder(t))
  {
    match t
    case Nil =>
    case Fork(a, x, b) =>
      InOrderIds(a);
      InOrderIds(b);
      var A, B := InOrder(a), InOrder(b);
      assert InOrder(t) == A + [x] + B;
      forall i, j | 0 <= i < j < |InOrder(t)|
        ensures InOrder(t)[i] != InOrder(t)[j]
      {
        if j < |A| {
        } else if j == |A| {
          assert InOrder(t)[i] == A[i];
        } else if i < |A| {
          assert InOrder(t)[i] in Ids(a);
          assert InOrder(t)[j] == B[j - |A| - 1];
        } else if i == |A| {
          assert InOrder(t)[j] == B[j - |A| - 1];
        } else {
          assert InOrder(t)[i] == B[i - |A| - 1];
        }
      }
  }

  /** The leftmost slot of a tree is its first slot in in-order and has no left child. */
  lemma {:induction false} LeftmostFacts(t: Shape)
    requires t.Fork?
    ensures Leftmost(t) in Ids(t) && InOrder(t)[0] == Leftmost(t)
    ensures Distinct(t) ==> Sub(t, Leftmost(t)).Fork? && Sub(t, Leftmost(t)).left == Nil
  {
    match t
    case Fork(a, x, b) =>
      if a.Fork? {
        LeftmostFacts(a);
        if Distinct(t) {
          assert Leftmost(t) != x;
        }
      }
  }

  lemma InOrderUnique(t: Shape)
    requires Distinct(t)
    ensures Unique(InOrder(t))
  {
    InOrderIds(t);
  }

  /** Replacing x by the subtree of its child r (or by nothing when r is NIL) drops x and
      keeps the slots distinct; r becomes the top when x was. */
  lemma LiftFacts(t: Shape, x: int, r: int, s: Shape)
    requires Distinct(t) && x in Ids(t) && (r == NIL || LeftOf(t, x) == r || RightOf(t, x) == r)
    requires s == Sub(t, r)
    ensures Distinct(Replace(t, x, s)) && Ids(Replace(t, x, s)) <= Ids(t) - {x}
    ensures Top(Replace(t, x, s)) == if x == Top(t) then r else Top(t)
  {
    SubFacts(t, x);
    ChildSubs(t, x);
    ReplaceTop(t, x, s);
    ReplaceIds(t, x, s);
    if r != NIL {
      SubFacts(t, r);
    } else {
      SubMissing(t, NIL);
    }
    ReplaceShrink(t, x, s);
  }
}
