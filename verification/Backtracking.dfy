/** The contexts that hold the choice made for a query variable or a numeric range, and can
    move on to the next choice. */
module Backtracking {
  import opened Tokens
  import opened Terms
  import opened Tries
  import opened Walks
  import opened Queries
  import opened SearchSpec
  import opened Accessors
  import opened IndexIterators
  import opened Wrappers

  class QvarCtxt {
    var isSolved: bool
    const places: IndexIterator

    ghost predicate Unsolved()
      reads this, places
    {
      !isSolved && places.backtrackIterators == []
    }

    /** The variable stands for the term path, and others are the choices not tried yet. */
    ghost predicate Solved(ix: Index, path: seq<Token>, others: seq<Spot>)
      reads this, places
    {
      && isSolved
      && places.Valid() && places.index == ix && places.walk != []
      && path == places.CurrentPath() && others == places.Remaining()
    }

    constructor (ix: Index)
      ensures Unsolved() && fresh(places)
    {
      isSolved := false;
      places := new IndexIterator(ix);
    }

    method Solve(ix: Index, root: Node, ghost need: nat)
        returns (node: Option<Node>, ghost path: seq<Token>, ghost others: seq<Spot>)
      requires Unsolved()
      requires IsNode(ix, root) && need > 0 && WellFormed(View(ix, root), need)
      modifies this, places
      ensures node.Some? && IsNode(ix, node.value) && Solved(ix, path, others)
      ensures Spots([], View(ix, root), 1) == [Spot(path, View(ix, node.value))] + others
    {
      hide View, IsNode, GetToken, GetNode, HasNext, WellFormed, IsWalk, Spots;
      places.Set(ix, root, need);
      StartStep(View(ix, root), need) by {
        assert places.Walking();
      }
      var events; ghost var moves;
      node, events, moves := places.Next();
      if node.Some? {
        isSolved := true;
      }
      path, others := places.CurrentPath(), places.Remaining();
    }

    method NextSol(ghost ix: Index, ghost path: seq<Token>, ghost others: seq<Spot>)
        returns (node: Option<Node>, ghost path': seq<Token>, ghost others': seq<Spot>)
      requires Solved(ix, path, others)
      modifies this, places
      ensures node.None? <==> others == []
      ensures node.None? ==> Unsolved()
      ensures node.Some? ==>
                && IsNode(ix, node.value)
                && Solved(ix, path', others')
                && others == [Spot(path', View(ix, node.value))] + others'
    {
      hide View, IsNode, GetToken, GetNode, HasNext, WellFormed, IsWalk, Spots;
      var events; ghost var moves;
      node, events, moves := places.Next();
      if node.None? {
        isSolved := false;
      }
      path', others' := places.CurrentPath(), places.Remaining();
    }
  }

  class RangeCtxt {
    var isSolved: bool
    const limits: Interval
    const numbers: map<MeaningId, real>
    var index: Index
    var root: Node
    var child: Iterator

    ghost predicate Unsolved()
      reads this
    {
      !isSolved
    }

    /** The range stands for the token path, and others are the choices not tried yet. */
    ghost predicate Solved(ix: Index, path: seq<Token>, others: seq<Spot>)
      reads this
    {
      && isSolved
      && index == ix && child.node == root && IsIterator(ix, child) && Sorted(View(ix, root).kids)
      && path == [GetToken(ix, child)]
      && others == InRange(numbers, limits, View(ix, root), child.pos + 1)
    }

    constructor (limits: Interval, numbers: map<MeaningId, real>, ix: Index)
      ensures Unsolved() && this.limits == limits && this.numbers == numbers
    {
      this.limits, this.numbers := limits, numbers;
      isSolved, index, root, child := false, ix, GetRootNode(ix), Iterator(GetRootNode(ix), 0);
    }

    method Solve(ix: Index, root: Node) returns (node: Option<Node>, ghost path: seq<Token>, ghost others: seq<Spot>)
      requires Unsolved()
      requires IsNode(ix, root) && View(ix, root).Inner? && View(ix, root).kids != [] && Sorted(View(ix, root).kids)
      modifies this
      ensures node.None? <==> InRange(numbers, limits, View(ix, root), 0) == []
      ensures node.None? ==> Unsolved()
      ensures node.Some? ==>
                && IsNode(ix, node.value)
                && Solved(ix, path, others)
                && InRange(numbers, limits, View(ix, root), 0) == [Spot(path, View(ix, node.value))] + others
    {
      hide View, IsNode, GetToken, GetNode, HasNext;
      this.index := ix;
      this.root := root;
      child := GetChildrenIterator(ix, root);
      node, path, others := FirstValid(0);
    }

    method NextSol(ghost ix: Index, ghost path: seq<Token>, ghost others: seq<Spot>)
        returns (node: Option<Node>, ghost path': seq<Token>, ghost others': seq<Spot>)
      requires Solved(ix, path, others)
      modifies this
      ensures node.None? <==> others == []
      ensures node.None? ==> Unsolved()
      ensures node.Some? ==>
                && IsNode(ix, node.value)
                && Solved(ix, path', others')
                && others == [Spot(path', View(ix, node.value))] + others'
    {
      hide View, IsNode, GetToken, GetNode, HasNext;
      path', others' := path, others;
      if !HasNext(index, child) {
        isSolved := false;
        return None, path, others;
      }
      child := Accessors.Next(child);
      node, path', others' := FirstValid(child.pos);
    }

    /** Moves on to the first child from position i whose token may stand at the range. */
    method FirstValid(ghost i: nat) returns (node: Option<Node>, ghost path: seq<Token>, ghost others: seq<Spot>)
      requires IsIterator(index, child) && child.node == root && child.pos == i
      requires Sorted(View(index, root).kids)
      modifies `child, `isSolved
      ensures node.None? <==> InRange(numbers, limits, View(index, root), i) == []
      ensures node.None? ==> Unsolved()
      ensures node.Some? ==>
                && IsNode(index, node.value)
                && Solved(index, path, others)
                && InRange(numbers, limits, View(index, root), i) == [Spot(path, View(index, node.value))] + others
    {
      hide View, IsNode, GetToken, GetNode, HasNext, ValidSubst, InRange, Token.Rank;
      ghost var t := View(index, root);
      var tok := GetToken(index, child);
      while !ValidSubst(numbers, limits, tok) && HasNext(index, child)
        invariant IsIterator(index, child) && child.node == root
        invariant tok == GetToken(index, child)
        invariant InRange(numbers, limits, t, i) == InRange(numbers, limits, t, child.pos)
        decreases |t.kids| - child.pos
      {
        SkipInvalid(numbers, limits, t, child.pos);
        child := Accessors.Next(child);
        tok := GetToken(index, child);
      }
      path, others := [tok], InRange(numbers, limits, t, child.pos + 1);
      TakeOrEnd(numbers, limits, t, child.pos);
      if !ValidSubst(numbers, limits, tok) {
        isSolved := false;
        return None, path, others;
      }
      ChildAt(t, child.pos);
      node := GetChild(index, root, tok);
      isSolved := true;
    }
  }

  lemma SkipInvalid(numbers: map<MeaningId, real>, limits: Interval, t: Trie, i: nat)
    requires t.Inner? && i < |t.kids| && !ValidSubst(numbers, limits, t.kids[i].tok)
    ensures InRange(numbers, limits, t, i) == InRange(numbers, limits, t, i + 1)
  {
  }

  lemma TakeOrEnd(numbers: map<MeaningId, real>, limits: Interval, t: Trie, i: nat)
    requires t.Inner? && i < |t.kids|
    ensures var e, rest := t.kids[i], InRange(numbers, limits, t, i + 1);
            && InRange(numbers, limits, t, i)
               == (if ValidSubst(numbers, limits, e.tok) then [Spot([e.tok], e.node)] + rest else rest)
            && (i + 1 == |t.kids| ==> rest == [])
  {
  }

  /** The two kinds of context behind one interface. */
  datatype BacktrackCtxt = Qvar(q: QvarCtxt) | Range(r: RangeCtxt) {

    ghost function Footprint(): set<object> {
      if Qvar? then {q, q.places} else {r}
    }

    ghost predicate Unsolved()
      reads Footprint()
    {
      if Qvar? then q.Unsolved() else r.Unsolved()
    }

    ghost predicate Solved(ix: Index, path: seq<Token>, others: seq<Spot>)
      reads Footprint()
    {
      if Qvar? then q.Solved(ix, path, others) else r.Solved(ix, path, others)
    }

    predicate IsSolved()
      reads Footprint()
    {
      if Qvar? then q.isSolved else r.isSolved
    }

    method NextSol(ghost ix: Index, ghost path: seq<Token>, ghost others: seq<Spot>)
        returns (node: Option<Node>, ghost path': seq<Token>, ghost others': seq<Spot>)
      requires Solved(ix, path, others)
      modifies Footprint()
      ensures node.None? <==> others == []
      ensures node.None? ==> Unsolved()
      ensures node.Some? ==>
                && IsNode(ix, node.value)
                && Solved(ix, path', others')
                && others == [Spot(path', View(ix, node.value))] + others'
    {
      hide View, IsNode;
      match this {
        case Qvar(q) => node, path', others' := q.NextSol(ix, path, others);
        case Range(r) => node, path', others' := r.NextSol(ix, path, others);
      }
    }
  }
}
