/** insert and remove of RedBlackTree as functions on the whole tree state: the search-tree
    step of Search followed, for insert, by the fix-up of Rebalance. The methods of the
    RedBlackTree class are proved to follow these functions. */
module Model {
  import opened Shapes
  import opened Rebalance
  import opened Search

  /** The tree state: the shape, and every slot's value and colour. */
  datatype State = State(shape: Shape, data: seq<int>, colour: seq<int>)

  /** A consistent state: distinct slots that all have a value and a colour, values in
      strictly increasing in-order, and every colour red or black. */
  ghost predicate Sound(s: State) {
    && Distinct(s.shape) && Stored(s.shape, s.data) && |s.colour| == |s.data|
    && Sorted(Keys(s.shape, s.data)) && Binary(s.colour)
  }

  /** The values of the tree in order. */
  function Contents(s: State): seq<int> {
    Keys(s.shape, s.data)
  }

  /** How insert ends: normally, by IllegalArgumentException on a duplicate (the tree is
      unchanged), or by the null dereference of the fix-up (the tree is left as it was at that
      moment, with the new node in it). */
  datatype Insertion = Inserted(after: State) | DuplicateValue | NullDereference(after: State)

  /** insert(v): a new red node in the next slot, placed by the search descent, then the
      fix-up from that node. */
  ghost function Insert(s: State, v: int): (r: Insertion)
    requires Sound(s)
    ensures r.DuplicateValue? <==> v in Contents(s)
    ensures !r.DuplicateValue? ==>
      && Sound(r.after)
      && multiset(Contents(r.after)) == multiset(Contents(s)) + multiset{v}
      && |InOrder(r.after.shape)| == |InOrder(s.shape)| + 1
    ensures r.Inserted? ==> r.after.shape.Fork? && Get(r.after.colour, Top(r.after.shape)) == BLACK
  {
    var n := |s.data|;
    PlaceFacts(s.shape, s.data, v);
    match Place(s.shape, s.data, v, n)
    case None => DuplicateValue
    case Some(t) =>
      var D := s.data + [v];
      var p := Painted(t, s.colour + [RED]);
      assert Bounded(p) && Binary(p.colour);
      assert n in Ids(t);
      var o := FixUp(p, n);
      KeysFrame(t, D, D);
      var after := State(o.state.shape, D, o.state.colour);
      assert Keys(after.shape, D) == Keys(t, D);
      if o.Fixed? then Inserted(after) else NullDereference(after)
  }

  /** Once the search descent has placed the new slot, insert is the fix-up of the grown tree. */
  lemma InsertPlaced(s: State, v: int, t: Shape)
    requires Sound(s) && Place(s.shape, s.data, v, |s.data|) == Some(t)
    ensures Distinct(t) && Bounded(Painted(t, s.colour + [RED])) && |s.data| in Ids(t)
    ensures var o := FixUp(Painted(t, s.colour + [RED]), |s.data|);
      var after := State(o.state.shape, s.data + [v], o.state.colour);
      Insert(s, v) == if o.Fixed? then Inserted(after) else NullDereference(after)
  {
    PlaceFacts(s.shape, s.data, v);
  }

  /** An insert that returns normally puts v into the old in-order values at its sorted
      place, so that afterwards the tree contains v. */
  lemma InsertSorted(s: State, v: int)
    requires Sound(s) && Insert(s, v).Inserted?
    ensures var K, k := Contents(s), Below(Contents(s), v);
      Contents(Insert(s, v).after) == K[..k] + [v] + K[k..]
    ensures v in Contents(Insert(s, v).after)
  {
    var K, k := Contents(s), Below(Contents(s), v);
    InsertAtBelow(K, v);
    SortedUnique(Contents(Insert(s, v).after), K[..k] + [v] + K[k..]);
  }

  /** How remove ends: normally, or by IllegalArgumentException when the value is absent. */
  datatype Removal = Removed(after: State) | NotFound

  /** remove(v): find the node holding v and unlink it; colours are not touched. */
  ghost function Remove(s: State, v: int): (r: Removal)
    requires Sound(s)
    ensures r.NotFound? <==> v !in Contents(s)
    ensures r.Removed? ==>
      && Sound(r.after)
      && multiset(Contents(r.after)) == multiset(Contents(s)) - multiset{v}
      && |InOrder(r.after.shape)| + 1 == |InOrder(s.shape)|
  {
    FindCorrect(s.shape, s.data, v);
    var x := Find(s.shape, s.data, v);
    if x == NIL then NotFound
    else
      UnlinkFacts(s.shape, s.data, x);
      var u := Unlink(s.shape, s.data, x);
      Removed(State(u.0, u.1, s.colour))
  }

  /** A remove that finds v takes exactly v out of the in-order values, from its sorted place. */
  lemma RemoveSorted(s: State, v: int)
    requires Sound(s) && Remove(s, v).Removed?
    ensures var K, k := Contents(s), Below(Contents(s), v);
      && k < |K| && K[k] == v
      && Contents(Remove(s, v).after) == K[..k] + K[k + 1..]
    ensures v !in Contents(Remove(s, v).after)
  {
    var K, k := Contents(s), Below(Contents(s), v);
    var K' := K[..k] + K[k + 1..];
    FoundAtBelow(K, v);
    DropSorted(K, k);
    DropAbsent(K, k);
    SortedUnique(Contents(Remove(s, v).after), K');
  }

  /** Inserting an absent value and then removing it gives back the same values in the same
      order and the same number of nodes, whether the insert ended normally or by the null
      dereference of the fix-up. */
  lemma InsertThenRemove(s: State, v: int)
    requires Sound(s) && v !in Contents(s)
    ensures !Insert(s, v).DuplicateValue?
    ensures var a := Insert(s, v).after;
      && Remove(a, v).Removed?
      && Contents(Remove(a, v).after) == Contents(s)
      && |InOrder(Remove(a, v).after.shape)| == |InOrder(s.shape)|
  {
    var a := Insert(s, v).after;
    assert v in multiset(Contents(a));
    assert multiset(Contents(Remove(a, v).after)) == multiset(Contents(s));
    SortedUnique(Contents(Remove(a, v).after), Contents(s));
  }
}
