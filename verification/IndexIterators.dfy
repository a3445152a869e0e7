/** The resumable walk over an index: a stack of child positions and a count of the terms still
    open. Each call of Next stops at the next place where one whole term has been read. */
module IndexIterators {
  import opened Tokens
  import opened Tries
  import opened Walks
  import opened Accessors
  import opened Wrappers

  /** The calls made to the onPush and onPop hooks. */
  datatype Event = OnPush(it: Iterator) | OnPop(it: Iterator)

  ghost function CursorOf(ix: Index, it: Iterator): (c: Cursor)
    requires IsIterator(ix, it)
    ensures c.Valid() && c.Tok() == GetToken(ix, it) && c.Kid() == View(ix, GetNode(ix, it))
  {
    Cursor(View(ix, it.node), it.pos)
  }

  /** it is the position c of the tree as seen in the index. */
  ghost predicate Shows(ix: Index, it: Iterator, c: Cursor)
  {
    IsIterator(ix, it) && c == CursorOf(ix, it)
  }

  ghost predicate ShowsAll(ix: Index, s: seq<Iterator>, w: seq<Cursor>)
  {
    |s| == |w| && forall i | 0 <= i < |s| :: Shows(ix, s[i], w[i])
  }

  ghost predicate ShowsMoves(ix: Index, events: seq<Event>, moves: seq<Move>)
  {
    && |events| == |moves|
    && forall i | 0 <= i < |events| ::
         Shows(ix, events[i].it, moves[i].c) && (events[i].OnPush? <==> moves[i].Enter?)
  }

  lemma Appended<T>(a: seq<T>, b: seq<T>, c: seq<T>)
    ensures (a + b) + c == a + (b + c)
  {
  }

  lemma ShowsBoth(ix: Index, e1: seq<Event>, m1: seq<Move>, e2: seq<Event>, m2: seq<Move>)
    requires ShowsMoves(ix, e1, m1) && ShowsMoves(ix, e2, m2)
    ensures ShowsMoves(ix, e1 + e2, m1 + m2)
  {
    hide Shows;
  }

  class IndexIterator {
    var backtrackIterators: seq<Iterator>
    var arity: int
    var index: Index
    var root: Node
    ghost var tree: Trie         // the tree below root
    ghost var need: nat          // its arity count
    ghost var walk: seq<Cursor>  // the stack as seen in the tree

    /** All but the arity count being zero between calls. */
    ghost predicate Walking()
      reads this
    {
      && IsNode(index, root) && tree == View(index, root)
      && ShowsAll(index, backtrackIterators, walk)
      && IsWalk(tree, need, walk)
      && arity == Open(tree, need, walk)
    }

    ghost predicate Valid()
      reads this
    {
      Walking() && (walk != [] ==> arity == 0)
    }

    /** The tokens of the term the walk stands behind. */
    ghost function CurrentPath(): seq<Token>
      reads this
      requires Walking()
    {
      Path(tree, need, walk)
    }

    /** The places that later calls of Next will return. An empty stack stands for a walk that
        has not begun. */
    ghost function Remaining(): seq<Spot>
      reads this
      requires Walking()
    {
      if walk == [] then Spots([], tree, 1) else Rest(tree, need, walk)
    }

    /** The hook calls that later calls of Next will make before the walk is over. */
    ghost function RemainingMoves(): seq<Move>
      reads this
      requires Walking()
    {
      if walk == [] then Tour(tree, 1) else Ahead(tree, need, walk)
    }

    constructor (ix: Index)
      ensures backtrackIterators == []
    {
      backtrackIterators, arity, index, root := [], 1, ix, GetRootNode(ix);
      walk := [];
    }

    method Set(ix: Index, node: Node, ghost n: nat)
      requires backtrackIterators == []
      requires IsNode(ix, node) && n > 0 && WellFormed(View(ix, node), n)
      modifies this
      ensures Valid() && walk == [] && index == ix && tree == View(ix, node) && need == n
    {
      arity, index, root := 1, ix, node;
      tree, need, walk := View(ix, node), n, [];
    }

    /** Moves to the next place where one whole term has been read; events are the hook calls
        made on the way. The stack is empty again when the walk is over. */
    method Next() returns (node: Option<Node>, events: seq<Event>, ghost moves: seq<Move>)
      requires Valid()
      modifies this
      ensures Valid() && index == old(index) && tree == old(tree) && need == old(need)
      ensures node.Some? <==> old(Remaining()) != []
      ensures node.Some? <==> walk != []
      ensures node.Some? ==>
                && IsNode(index, node.value)
                && old(Remaining()) == [Spot(CurrentPath(), View(index, node.value))] + Remaining()
      ensures ShowsMoves(index, events, moves)
      ensures old(RemainingMoves()) == moves + if node.Some? then RemainingMoves() else []
      ensures After(tree, need, old(walk), moves) == Some(walk)
    {
      hide View, IsNode, GetToken, GetNode, HasNext, IsWalk, Open, Path, Rest, Top, Ahead, Tour, TourFrom, Spots,
        SpotsFrom, FromHere, AheadHere, WellFormed, After, Extends, ShowsMoves;
      events, moves := StartOrGoOn();
      if backtrackIterators == [] {
        return None, events, moves;
      }
      ghost var here, before := walk, moves;
      var fired, made := Complete();
      AfterConcat(tree, need, old(walk), before, here, made);
      Appended(before, made, AheadHere(tree, need, walk));
      ShowsBoth(index, events, before, fired, made);
      events, moves := events + fired, before + made;
      CompleteStep(tree, need, walk);
      node := Some(GetNode(index, Last(backtrackIterators)));
    }

    /** Goes to the first child of the root, or from where the walk stands to the next child of a
        node on the stack, if there is one. */
    method StartOrGoOn() returns (events: seq<Event>, ghost moves: seq<Move>)
      requires Valid()
      modifies `backtrackIterators, `arity, `walk
      ensures Walking() && ShowsMoves(index, events, moves) && After(tree, need, old(walk), moves) == Some(walk)
      ensures old(Remaining()) == if walk == [] then [] else FromHere(tree, need, walk)
      ensures old(RemainingMoves()) == moves + if walk == [] then [] else AheadHere(tree, need, walk)
    {
      hide View, IsNode, GetToken, GetNode, HasNext, IsWalk, Open, Path, Rest, Top, Ahead, Tour, TourFrom, Spots,
        SpotsFrom, FromHere, AheadHere, WellFormed, After, Extends, ShowsMoves;
      if backtrackIterators == [] {
        events, moves := Begin();
      } else {
        events, moves := Unwind();
        if backtrackIterators == [] {
          FinishStep(tree, need);
          return;
        }
        ghost var before, climbed := walk, moves;
        var turn;
        turn, moves := StepAside();
        AfterConcat(tree, need, old(walk), climbed, before, moves);
        Appended(climbed, moves, AheadHere(tree, need, walk));
        ShowsBoth(index, events, climbed, turn, moves);
        events, moves := events + turn, climbed + moves;
      }
    }

    /** Goes to the first child of the root. */
    method Begin() returns (events: seq<Event>, ghost moves: seq<Move>)
      requires Valid() && walk == []
      modifies `backtrackIterators, `arity, `walk
      ensures Walking() && walk != [] && old(Remaining()) != []
      ensures FromHere(tree, need, walk) == old(Remaining())
      ensures ShowsMoves(index, events, moves)
      ensures old(RemainingMoves()) == moves + AheadHere(tree, need, walk)
      ensures After(tree, need, old(walk), moves) == Some(walk)
    {
      hide View, IsNode, GetToken, GetNode, HasNext, IsWalk, Open, Path, Rest, Top, Ahead, Tour, TourFrom, Spots,
        SpotsFrom, FromHere, AheadHere, WellFormed, After, Extends;
      StartStep(tree, need);
      PushStep(tree, need, walk);
      var it := GetChildrenIterator(index, root);
      NoMoves(tree, need, walk);
      AfterSnoc(tree, need, walk, [], walk, Enter(CursorOf(index, it)));
      Push(it);
      events, moves := [OnPush(it)], [] + [Enter(Last(walk))];
    }

    /** Goes to the next child of the last node. */
    method StepAside() returns (events: seq<Event>, ghost moves: seq<Move>)
      requires Walking() && walk != [] && HasNext(index, Last(backtrackIterators))
      modifies `backtrackIterators, `arity, `walk
      ensures Walking() && walk != []
      ensures FromHere(tree, need, walk) == old(Rest(tree, need, walk))
      ensures ShowsMoves(index, events, moves)
      ensures old(Ahead(tree, need, walk)) == moves + AheadHere(tree, need, walk)
      ensures After(tree, need, old(walk), moves) == Some(walk)
    {
      hide View, IsNode, GetToken, GetNode, HasNext, IsWalk, Open, Path, Rest, Top, Ahead, Tour, TourFrom, Spots,
        SpotsFrom, FromHere, AheadHere, WellFormed, After, Extends;
      AdvanceStep(tree, need, walk);
      var prev := Last(backtrackIterators);
      ghost var left := Last(walk);
      NoMoves(tree, need, walk);
      AfterSnoc(tree, need, walk, [], walk, Leave(left));
      assert [] + [Leave(left)] == [Leave(left)];
      AfterSnoc(tree, need, walk, [Leave(left)], Init(walk), Enter(Cursor(left.t, left.pos + 1)));
      assert [Leave(left), Enter(Cursor(left.t, left.pos + 1))]
             == [Leave(left)] + [Enter(Cursor(left.t, left.pos + 1))];
      Advance();
      events := [OnPop(prev), OnPush(Last(backtrackIterators))];
      assert Last(walk) == Cursor(left.t, left.pos + 1);
      moves := [Leave(left), Enter(Last(walk))];
    }

    /** Pops the levels that have no further child. */
    method Unwind() returns (events: seq<Event>, ghost moves: seq<Move>)
      requires Walking() && walk != []
      modifies `backtrackIterators, `arity, `walk
      ensures Walking()
      ensures walk != [] ==> HasNext(index, Last(backtrackIterators))
      ensures Rest(tree, need, walk) == old(Rest(tree, need, walk))
      ensures ShowsMoves(index, events, moves)
      ensures old(Ahead(tree, need, walk)) == moves + Ahead(tree, need, walk)
      ensures After(tree, need, old(walk), moves) == Some(walk)
    {
      hide View, IsNode, GetToken, GetNode, HasNext, IsWalk, Open, Path, Rest, Top, Ahead, Tour, TourFrom, Spots,
        SpotsFrom, FromHere, AheadHere, WellFormed, After, Extends;
      events, moves := [], [];
      NoMoves(tree, need, walk);
      while backtrackIterators != [] && !HasNext(index, Last(backtrackIterators))
        invariant Walking()
        invariant Rest(tree, need, walk) == old(Rest(tree, need, walk))
        invariant ShowsMoves(index, events, moves)
        invariant old(Ahead(tree, need, walk)) == moves + Ahead(tree, need, walk)
        invariant After(tree, need, old(walk), moves) == Some(walk)
        decreases |walk|
      {
        PopStep(tree, need, walk);
        AfterSnoc(tree, need, old(walk), moves, walk, Leave(Last(walk)));
        events := events + [OnPop(Last(backtrackIterators))];
        moves := moves + [Leave(Last(walk))];
        Pop();
      }
    }

    /** Goes down along first children until the open term is complete. */
    method Complete() returns (events: seq<Event>, ghost moves: seq<Move>)
      requires Walking() && walk != []
      modifies `backtrackIterators, `arity, `walk
      ensures Walking() && walk != [] && arity == 0
      ensures FromHere(tree, need, walk) == old(FromHere(tree, need, walk))
      ensures ShowsMoves(index, events, moves)
      ensures old(AheadHere(tree, need, walk)) == moves + AheadHere(tree, need, walk)
      ensures After(tree, need, old(walk), moves) == Some(walk)
    {
      hide View, IsNode, GetToken, GetNode, HasNext, IsWalk, Open, Path, Rest, Top, Ahead, Tour, TourFrom, Spots,
        SpotsFrom, FromHere, AheadHere, WellFormed, After, Extends;
      events, moves := [], [];
      NoMoves(tree, need, walk);
      while arity > 0
        invariant Walking() && walk != []
        invariant FromHere(tree, need, walk) == old(FromHere(tree, need, walk))
        invariant ShowsMoves(index, events, moves)
        invariant old(AheadHere(tree, need, walk)) == moves + AheadHere(tree, need, walk)
        invariant After(tree, need, old(walk), moves) == Some(walk)
        decreases Top(tree, need, walk)
      {
        TopIsKid(tree, need, walk);
        PushStep(tree, need, walk);
        var it := GetChildrenIterator(index, GetNode(index, Last(backtrackIterators)));
        AfterSnoc(tree, need, old(walk), moves, walk, Enter(CursorOf(index, it)));
        Push(it);
        events := events + [OnPush(it)];
        moves := moves + [Enter(Last(walk))];
      }
      TopIsKid(tree, need, walk);
    }

    method Push(it: Iterator)
      requires ShowsAll(index, backtrackIterators, walk) && IsIterator(index, it)
      modifies `backtrackIterators, `arity, `walk
      ensures backtrackIterators == old(backtrackIterators) + [it]
      ensures walk == old(walk) + [CursorOf(index, it)]
      ensures ShowsAll(index, backtrackIterators, walk)
      ensures arity == old(arity) + CursorOf(index, it).Tok().arity - 1
    {
      hide View, IsNode, GetToken, GetNode, HasNext;
      arity := arity + GetArity(index, it) - 1;
      backtrackIterators := backtrackIterators + [it];
      walk := walk + [CursorOf(index, it)];
    }

    method Pop()
      requires ShowsAll(index, backtrackIterators, walk) && walk != []
      modifies `backtrackIterators, `arity, `walk
      ensures backtrackIterators == old(Init(backtrackIterators)) && walk == old(Init(walk))
      ensures ShowsAll(index, backtrackIterators, walk)
      ensures arity == old(arity) - (old(CursorOf(index, Last(backtrackIterators))).Tok().arity as int - 1)
    {
      hide View, IsNode, GetToken, GetNode, HasNext;
      arity := arity - (GetArity(index, Last(backtrackIterators)) as int - 1);
      backtrackIterators := Init(backtrackIterators);
      walk := Init(walk);
    }

    method Advance()
      requires ShowsAll(index, backtrackIterators, walk) && walk != []
      requires HasNext(index, Last(backtrackIterators))
      modifies `backtrackIterators, `arity, `walk
      ensures |backtrackIterators| == |old(backtrackIterators)|
      ensures walk == old(Init(walk) + [Cursor(Last(walk).t, Last(walk).pos + 1)])
      ensures ShowsAll(index, backtrackIterators, walk)
      ensures arity == old(arity) + Last(walk).Tok().arity - old(CursorOf(index, Last(backtrackIterators))).Tok().arity
    {
      hide View, IsNode, GetToken, GetNode, HasNext;
      var prev := Last(backtrackIterators);
      backtrackIterators := Init(backtrackIterators) + [Accessors.Next(prev)];
      arity := arity + GetArity(index, Last(backtrackIterators)) - GetArity(index, prev);
      walk := Init(walk) + [CursorOf(index, Last(backtrackIterators))];
    }
  }
}
