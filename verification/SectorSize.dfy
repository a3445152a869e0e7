/** The size announced for a sector before it is written, and the size it gets. */
module SectorSize {
  import opened Tokens
  import opened Tries
  import opened Walks
  import opened Accessors
  import opened IndexIterators
  import opened Sectors
  import opened SectorLayout
  import opened Exports
  import opened Wrappers

  /** The size of a node with short offsets, computed in 32 bits. */
  function InodeSize(numChildren: nat): nat {
    (NODE_SIZE + numChildren % TWO_32 * EntrySize(false)) % TWO_32
  }

  function OwnSize(t: Trie): nat {
    match t
    case Leaf(_, _) => NODE_SIZE
    case Inner(kids) => InodeSize(|kids|)
  }

  /** The announced size: every node counted as if it were short. */
  ghost function Announced(t: Trie): nat
    decreases t, 1, 0
  {
    OwnSize(t) + if t.Inner? then AnnouncedKids(t, |t.kids|) else 0
  }

  /** The part of the first i children. */
  ghost function AnnouncedKids(t: Trie, i: nat): nat
    requires t.Inner? && i <= |t.kids|
    decreases t, 0, i
  {
    if i == 0 then 0 else AnnouncedKids(t, i - 1) + Announced(t.kids[i - 1].node)
  }

  /** The number of entries in long nodes. */
  ghost function LongEntries(t: Trie, start: nat, longStart: nat): nat
    requires Dense(t)
    decreases t, 1, 0
  {
    if t.Leaf? then 0
    else
      var own := if IsLong(Offsets(t, |t.kids|, start, longStart), Address(t, start, longStart) / ALLOC_UNIT,
                           longStart) then |t.kids| else 0;
      own + LongEntriesBefore(t, |t.kids|, start, longStart)
  }

  ghost function LongEntriesBefore(t: Trie, i: nat, start: nat, longStart: nat): nat
    requires Dense(t) && t.Inner? && i <= |t.kids|
    decreases t, 0, i
  {
    if i == 0 then 0
    else
      LongEntriesBefore(t, i - 1, start, longStart)
      + LongEntries(t.kids[i - 1].node, start + |Before(t, i - 1, start, longStart)|, longStart)
  }

  /** The 32-bit size of every node is exact. */
  ghost predicate Narrow(t: Trie)
    decreases t
  {
    t.Inner? ==> NODE_SIZE + 8 * |t.kids| < TWO_32 && forall i | 0 <= i < |t.kids| :: Narrow(t.kids[i].node)
  }

  /** Each entry of a long node takes four bytes more than announced. */
  lemma {:induction false} WrittenSize(t: Trie, start: nat, longStart: nat)
    requires Dense(t) && Narrow(t)
    ensures |Written(t, start, longStart)| == Announced(t) + 4 * LongEntries(t, start, longStart)
    decreases t, 1, 0
  {
    hide Before, Offsets, EntryBytes, HeaderBytes, LeafBytes, InodeSize, Address, IsLong, AnnouncedKids;
    if t.Inner? {
      BeforeSize(t, |t.kids|, start, longStart);
      InodeSizeExact(|t.kids|);
    }
  }

  lemma InodeSizeExact(n: nat)
    requires NODE_SIZE + 8 * n < TWO_32
    ensures InodeSize(n) == NODE_SIZE + 8 * n
  {
  }

  lemma {:induction false} BeforeSize(t: Trie, i: nat, start: nat, longStart: nat)
    requires Dense(t) && Narrow(t) && t.Inner? && i <= |t.kids|
    ensures |Before(t, i, start, longStart)| == AnnouncedKids(t, i) + 4 * LongEntriesBefore(t, i, start, longStart)
    decreases t, 0, i
  {
    if i > 0 {
      BeforeSize(t, i - 1, start, longStart);
      WrittenSize(t.kids[i - 1].node, start + |Before(t, i - 1, start, longStart)|, longStart);
    }
  }

  /** The announced size is right exactly when no node is long. */
  lemma AnnouncedIffShort(t: Trie, longStart: nat)
    requires Dense(t) && Narrow(t)
    ensures |Exported(t, longStart)| == HEADER_SIZE + Announced(t) <==> LongEntries(t, HEADER_SIZE, longStart) == 0
  {
    hide Written, Header, Announced, LongEntries;
    WrittenSize(t, HEADER_SIZE, longStart);
  }

  /** As long as all that is written stays below the threshold, no node is long. */
  lemma {:induction false} BelowThresholdShort(t: Trie, start: nat, longStart: nat)
    requires Dense(t) && start % ALLOC_UNIT == 0 && start + |Written(t, start, longStart)| <= ALLOC_UNIT * longStart
    ensures LongEntries(t, start, longStart) == 0
    decreases t, 1, 0
  {
    hide Before, LongEntriesBefore, Address, Offsets, OwnBytes;
    if t.Inner? {
      WrittenAligned(t, start, longStart);
      BelowThresholdBefore(t, |t.kids|, start, longStart);
      assert Address(t, start, longStart) / ALLOC_UNIT < longStart;
    }
  }

  lemma {:induction false} BelowThresholdBefore(t: Trie, i: nat, start: nat, longStart: nat)
    requires Dense(t) && t.Inner? && i <= |t.kids|
    requires start % ALLOC_UNIT == 0 && start + |Before(t, i, start, longStart)| <= ALLOC_UNIT * longStart
    ensures LongEntriesBefore(t, i, start, longStart) == 0
    decreases t, 0, i
  {
    hide Written, LongEntries;
    if i > 0 {
      BelowThresholdBefore(t, i - 1, start, longStart);
      BeforeAligned(t, i - 1, start, longStart);
      BelowThresholdShort(t.kids[i - 1].node, start + |Before(t, i - 1, start, longStart)|, longStart);
    }
  }

  /** At the threshold of the source, 2^32 units, the announced size is right for every sector that
      its 34-bit addresses can reach. */
  lemma AnnouncedIsRight(t: Trie)
    requires Dense(t) && Narrow(t) && |Exported(t, TWO_32)| <= TWO_34
    ensures |Exported(t, TWO_32)| == HEADER_SIZE + Announced(t)
  {
    hide Written, Header, Announced, LongEntries;
    BelowThresholdShort(t, HEADER_SIZE, TWO_32);
    AnnouncedIffShort(t, TWO_32);
  }

  // ---------------------------------------------------------------- counting on the way

  /** What the walk adds up: each node when it is left. */
  ghost function Counted(moves: seq<Move>): nat
    decreases |moves|
  {
    if moves == [] then 0
    else (if moves[0].Leave? && moves[0].c.Valid() then OwnSize(moves[0].c.Kid()) else 0) + Counted(moves[1..])
  }

  lemma {:induction false} CountedConcat(a: seq<Move>, b: seq<Move>)
    ensures Counted(a + b) == Counted(a) + Counted(b)
    decreases |a|
  {
    if a == [] {
      assert a + b == b;
    } else {
      assert (a + b)[1..] == a[1..] + b;
      CountedConcat(a[1..], b);
    }
  }

  lemma {:induction false} TourCounted(t: Trie, c: nat, i: nat)
    requires WellFormed(t, c) && t.Inner? && i <= |t.kids|
    ensures AnnouncedKids(t, i) + Counted(TourFrom(t, c, i)) == AnnouncedKids(t, |t.kids|)
    decreases t, |t.kids| - i
  {
    hide OwnSize, Counted, Announced;
    if i == |t.kids| {
      CountedNone();
    } else {
      var kid, c' := t.kids[i].node, c - 1 + t.kids[i].tok.arity;
      KidCounted(Cursor(t, i), Tour(kid, c'), TourFrom(t, c, i + 1));
      TourOfKid(kid, c');
      TourCounted(t, c, i + 1);
    }
  }

  lemma {:induction false} TourOfKid(t: Trie, c: nat)
    requires WellFormed(t, c)
    ensures OwnSize(t) + Counted(Tour(t, c)) == Announced(t)
    decreases t
  {
    hide OwnSize;
    if t.Inner? {
      TourCounted(t, c, 0);
    }
  }

  lemma KidCounted(cur: Cursor, below: seq<Move>, after: seq<Move>)
    requires cur.Valid()
    ensures Counted([Enter(cur)] + below + [Leave(cur)] + after) == Counted(below) + OwnSize(cur.Kid()) + Counted(after)
  {
    hide OwnSize, Counted;
    CountedConcat([Enter(cur)] + below + [Leave(cur)], after);
    CountedConcat([Enter(cur)] + below, [Leave(cur)]);
    CountedConcat([Enter(cur)], below);
    CountedOne(Enter(cur));
    CountedOne(Leave(cur));
  }

  lemma CountedNone()
    ensures Counted([]) == 0
  {
  }

  lemma CountedOne(move: Move)
    ensures Counted([move]) == if move.Leave? && move.c.Valid() then OwnSize(move.c.Kid()) else 0
  {
    assert [move][1..] == [];
  }

  method CountEvents(ix: Index, events: seq<Event>, ghost moves: seq<Move>) returns (size: nat)
    requires ix.TmpIndex? && ShowsMoves(ix, events, moves)
    ensures size == Counted(moves)
  {
    size := 0;
    var i := 0;
    while i < |events|
      invariant 0 <= i <= |events| == |moves|
      invariant size == Counted(moves[..i])
    {
      hide OwnSize, InodeSize;
      assert Shows(ix, events[i].it, moves[i].c);
      if events[i].OnPop? {
        size := size + OwnSize(GetNode(ix, events[i].it).t);
      }
      assert moves[..i + 1] == moves[..i] + [moves[i]];
      CountedConcat(moves[..i], [moves[i]]);
      CountedOne(moves[i]);
      i := i + 1;
    }
    assert moves[..i] == moves;
  }

  method ComputeMemsectorSize(tree: Trie) returns (size: nat)
    requires WellFormed(tree, 1)
    ensures size == Announced(tree)
  {
    hide View, IsNode, Counted, InodeSize;
    var ix := TmpIndex(tree);
    RootView(tree);
    var it := new IndexIterator(ix);
    it.Set(ix, GetRootNode(ix), 1);
    assert it.RemainingMoves() == TourFrom(tree, 1, 0);
    TourCounted(tree, 1, 0);
    size := 0;
    var going := true;
    while going
      invariant it.Valid() && it.index == ix
      invariant going ==> size + Counted(it.RemainingMoves()) == AnnouncedKids(tree, |tree.kids|)
      invariant !going ==> size == AnnouncedKids(tree, |tree.kids|)
      decreases going, if going then |it.Remaining()| else 0
    {
      var node, events; ghost var moves;
      node, events, moves := it.Next();
      var part := CountEvents(ix, events, moves);
      if node.Some? {
        CountedConcat(moves, it.RemainingMoves());
      } else {
        assert moves + [] == moves;
      }
      size := size + part;
      going := node.Some?;
    }
    size := size + InodeSize(|tree.kids|);
  }
}
