/** The analysis of an index: every formula in it is rebuilt as a tree and handed on with its hits. */
module Analytics {
  import opened Tokens
  import opened Terms
  import opened Tries
  import opened Accessors
  import opened Walks
  import opened IndexIterators
  import opened Schemas
  import opened TokenTrees
  import opened CmmlTokenBuilders
  import opened Wrappers

  /** All tokens of the index decode to meanings with a separator. */
  ghost predicate Decodable(dec: Decoder, t: Trie)
  {
    t.Inner? ==> forall i | 0 <= i < |t.kids| :: HasSeparator(dec, t.kids[i].tok) && Decodable(dec, t.kids[i].node)
  }

  /** The terms waiting for children are those the walk counts as open. */
  lemma {:induction false} PendingIsOpen(root: Trie, s: seq<Cursor>)
    requires IsWalk(root, 1, s) && s != []
    ensures |Pending(Path(root, 1, s))| == Open(root, 1, s)
    decreases |s|
  {
    hide Pending, Top;
    var p, tok := Path(root, 1, Init(s)), Last(s).Tok();
    PendingSnoc(p, tok);
    if Init(s) != [] {
      PendingIsOpen(root, Init(s));
    } else {
      NothingPending();
    }
  }

  lemma NothingPending()
    ensures Pending([]) == []
  {
  }

  lemma {:induction false} WalkDecodable(dec: Decoder, root: Trie, s: seq<Cursor>)
    requires IsWalk(root, 1, s) && Decodable(dec, root)
    ensures Decodable(dec, Top(root, 1, s))
    decreases |s|
  {
    if s != [] {
      WalkDecodable(dec, root, Init(s));
    }
  }

  /** The builder can follow a move of the walk. */
  lemma CanFollow(dec: Decoder, root: Trie, s: seq<Cursor>, c: Cursor)
    requires Extends(root, 1, s, c) && Decodable(dec, root)
    ensures IsWalk(root, 1, s + [c]) && Path(root, 1, s + [c]) == Path(root, 1, s) + [c.Tok()]
    ensures HasSeparator(dec, c.Tok())
    ensures Path(root, 1, s) == [] || Pending(Path(root, 1, s)) != []
  {
    hide Pending, HasSeparator;
    ExtendWalk(root, 1, s, c);
    WalkDecodable(dec, root, s);
    if s != [] {
      PendingIsOpen(root, s);
    }
  }

  lemma CanReturn(root: Trie, s: seq<Cursor>)
    requires IsWalk(root, 1, s) && s != []
    ensures IsWalk(root, 1, Init(s)) && Path(root, 1, s) == Path(root, 1, Init(s)) + [Last(s).Tok()]
  {
  }

  lemma OneMove(root: Trie, s: seq<Cursor>, moves: seq<Move>, k: nat)
    requires k < |moves| && After(root, 1, s, moves).Some? && IsWalk(root, 1, s)
    ensures After(root, 1, s, moves[..k]).Some? && After(root, 1, s, moves[..k + 1]).Some?
    ensures var w, m, w' := After(root, 1, s, moves[..k]).value, moves[k], After(root, 1, s, moves[..k + 1]).value;
            if m.Enter? then Extends(root, 1, w, m.c) && w' == w + [m.c]
            else w != [] && Last(w) == m.c && w' == Init(w)
  {
    hide Extends, IsWalk;
    MovesBefore(root, s, moves, k + 1);
    assert Init(moves[..k + 1]) == moves[..k] && Last(moves[..k + 1]) == moves[k];
  }

  lemma {:induction false} MovesBefore(root: Trie, s: seq<Cursor>, moves: seq<Move>, k: nat)
    requires k <= |moves| && After(root, 1, s, moves).Some?
    ensures After(root, 1, s, moves[..k]).Some?
    decreases |moves|
  {
    hide Extends;
    if k < |moves| {
      assert Init(moves)[..k] == moves[..k];
      MovesBefore(root, s, Init(moves), k);
    } else {
      assert moves[..k] == moves;
    }
  }

  /** The hooks: the builder follows the walk. */
  method Follow(builder: CmmlTokenBuilder, ix: Index, events: seq<Event>, ghost moves: seq<Move>, ghost root: Trie,
                ghost s: seq<Cursor>, ghost s': seq<Cursor>)
    requires builder.Valid() && Decodable(builder.decoder, root) && IsWalk(root, 1, s)
    requires builder.path == Path(root, 1, s) && ShowsMoves(ix, events, moves) && After(root, 1, s, moves) == Some(s')
    modifies builder, builder.tokens
    ensures builder.Valid() && IsWalk(root, 1, s') && builder.path == Path(root, 1, s')
    ensures fresh((set n | n in builder.tokens) - old(set n | n in builder.tokens))
  {
    hide Pending, IsWalk, Path, After, Extends, HasSeparator, Decodable, GetToken, View, IsNode;
    ghost var w := s;
    NoMoves(root, 1, s);
    assert moves[..0] == [];
    var i := 0;
    while i < |events|
      invariant 0 <= i <= |events| == |moves| && After(root, 1, s, moves[..i]) == Some(w)
      invariant builder.Valid() && IsWalk(root, 1, w) && builder.path == Path(root, 1, w)
      invariant fresh((set n | n in builder.tokens) - old(set n | n in builder.tokens))
    {
      OneMove(root, s, moves, i);
      var token := GetToken(ix, events[i].it);
      if events[i].OnPush? {
        CanFollow(builder.decoder, root, w, moves[i].c);
        builder.PushToken(token);
        w := w + [moves[i].c];
      } else {
        CanReturn(root, w);
        builder.PopToken(token);
        w := Init(w);
      }
      i := i + 1;
    }
    assert moves[..i] == moves;
  }

  /** c is the tree of the term whose code is w. */
  ghost predicate IsTreeOf(dec: Decoder, c: Cmml, w: seq<Token>)
  {
    exists t: Term :: Ranked(t) && Preorder(t) == w && c == Tree(dec, t)
  }

  lemma CompleteTree(dec: Decoder, w: seq<Token>)
    requires IsCode(w, 1)
    ensures w != [] && IsTreeOf(dec, Value(dec, w, 0), w)
  {
    hide Value, Tree;
    CodeIffTerm(w);
    var t: Term :| Ranked(t) && Preorder(t) == w;
    ValueIsTree(dec, [], t, []);
    assert [] + Preorder(t) + [] == w;
  }

  /** What has been handed on of all leaves: trees and hits in trie order. */
  ghost predicate Seen(dec: Decoder, seen: seq<(Cmml, nat)>, all: seq<Spot>)
  {
    && |seen| <= |all|
    && forall k | 0 <= k < |seen| ::
         all[k].node.Leaf? && seen[k].1 == all[k].node.hits && IsTreeOf(dec, seen[k].0, all[k].path)
  }

  /** Rebuilds the formula of every leaf in trie order and hands it on with its number of hits;
      the receiver may stop the analysis after the given number of formulae. */
  method Analyze(ix: Index, decoder: Decoder, stopAfter: nat) returns (seen: seq<(Cmml, nat)>)
    requires IsNode(ix, GetRootNode(ix)) && WellFormed(View(ix, GetRootNode(ix)), 1)
    requires Decodable(decoder, View(ix, GetRootNode(ix)))
    ensures var all := Leaves([], View(ix, GetRootNode(ix)));
            Seen(decoder, seen, all) && |seen| == if 0 < stopAfter < |all| then stopAfter else |all|
  {
    hide *;
    ghost var tree := View(ix, GetRootNode(ix));
    ghost var all := Leaves([], tree);
    var builder := new CmmlTokenBuilder(decoder);
    var it := new IndexIterator(ix);
    it.Set(ix, GetRootNode(ix), 1);
    StartAnalysis(it, builder, ix, tree, decoder);
    seen := [];
    var going := true;
    while going
      invariant InStep(it, builder, ix, tree) && builder.decoder == decoder
      invariant fresh(it) && fresh(builder) && fresh(set n | n in builder.tokens)
      invariant |seen| <= |all| && Seen(decoder, seen, all)
      invariant going ==> ToCome(it, all, |seen|) && (stopAfter == 0 || |seen| < stopAfter)
      invariant !going ==> |seen| == if 0 < stopAfter < |all| then stopAfter else |all|
      decreases going, |all| - |seen|
    {
      var found, hits, c := NextFormula(it, builder, ix, tree, all, |seen|);
      if found {
        SeenSnoc(decoder, seen, all, c, hits);
        seen := seen + [(c, hits)];
        going := |seen| != stopAfter;
      } else {
        going := false;
      }
    }
  }

  /** The builder holds the path of the walk. */
  ghost predicate InStep(it: IndexIterator, builder: CmmlTokenBuilder, ix: Index, tree: Trie)
    reads it, builder, builder.tokens
  {
    && it.Valid() && it.index == ix && it.tree == tree && it.need == 1
    && builder.Valid() && builder.path == Path(tree, 1, it.walk) && Decodable(builder.decoder, tree)
  }

  ghost predicate ToCome(it: IndexIterator, all: seq<Spot>, k: nat)
    reads it
  {
    it.Valid() && k <= |all| && it.Remaining() == all[k..]
  }

  lemma StartAnalysis(it: IndexIterator, builder: CmmlTokenBuilder, ix: Index, tree: Trie, decoder: Decoder)
    requires it.Valid() && it.walk == [] && it.index == ix && it.tree == tree && it.need == 1
    requires builder.Valid() && builder.path == [] && builder.decoder == decoder && Decodable(decoder, tree)
             && WellFormed(tree, 1)
    ensures InStep(it, builder, ix, tree) && ToCome(it, Leaves([], tree), 0) && Seen(decoder, [], Leaves([], tree))
  {
    hide Leaves, Spots, WellFormed, Decodable, CmmlTokenBuilder.Valid;
    LeavesAreSpots([], tree, 1);
    EmptyWalk(tree);
    assert Leaves([], tree)[0..] == Leaves([], tree);
  }

  lemma SeenSnoc(dec: Decoder, seen: seq<(Cmml, nat)>, all: seq<Spot>, c: Cmml, hits: nat)
    requires Seen(dec, seen, all) && |seen| < |all| && all[|seen|].node.Leaf?
    requires hits == all[|seen|].node.hits && IsTreeOf(dec, c, all[|seen|].path)
    ensures Seen(dec, seen + [(c, hits)], all)
  {
    hide IsTreeOf;
  }

  /** Goes on to the next leaf; the builder then holds its formula. */
  method NextFormula(it: IndexIterator, builder: CmmlTokenBuilder, ix: Index, ghost tree: Trie, ghost all: seq<Spot>,
                     ghost k: nat)
      returns (found: bool, hits: nat, c: Cmml)
    requires InStep(it, builder, ix, tree) && WellFormed(tree, 1) && all == Leaves([], tree) && ToCome(it, all, k)
    modifies it, builder, builder.tokens
    ensures InStep(it, builder, ix, tree) && found == (k < |all|)
    ensures fresh((set n | n in builder.tokens) - old(set n | n in builder.tokens))
    ensures found ==> ToCome(it, all, k + 1)
    ensures found ==> all[k].node.Leaf? && hits == all[k].node.hits && IsTreeOf(builder.decoder, c, all[k].path)
  {
    hide Pending, IsWalk, Path, After, Extends, HasSeparator, Decodable, View, IsNode, Leaves, Spots, Tour, Ahead, Open,
      WellFormed, IsTreeOf, Value, Buildable, Denotes, TokenTrees.Rest, Walks.Rest, CmmlTokenBuilder.Valid;
    LeavesExact(tree);
    ghost var before := it.walk;
    var node, events; ghost var moves;
    node, events, moves := it.Next();
    Follow(builder, ix, events, moves, tree, before, it.walk);
    found, hits, c := node.Some?, 0, Qvar(0);
    if found {
      assert all[k..][0] == all[k] && all[k] in all && all[k + 1..] == all[k..][1..];
      CompleteTree(builder.decoder, builder.path);
      hits := GetHitsCount(ix, node.value);
      var cmml := builder.Get();
      c := CmmlTokenBuilders.ReadTree(cmml, Value(builder.decoder, builder.path, 0), set n | n in builder.tokens);
    }
  }

  lemma EmptyWalk(root: Trie)
    requires WellFormed(root, 1)
    ensures IsWalk(root, 1, []) && Path(root, 1, []) == []
  {
  }
}
