/** The in-memory index: nodes linked through their child maps, grown by inserting codes. */
module TmpIndexes {
  import opened Tokens
  import opened Terms
  import opened Tries
  import opened VectorMaps
  import opened Grafts
  import opened Wrappers

  /** A node; the fields id and solutions are those of the leaf subclass. */
  class TmpIndexNode {
    const children: VectorMap<TmpIndexNode?>
    const isLeaf: bool
    const id: nat
    var solutions: nat

    constructor (isLeaf: bool, id: nat)
      ensures this.isLeaf == isLeaf && this.id == id && solutions == 0
      ensures fresh(children) && children.data == []
    {
      this.isLeaf, this.id, solutions := isLeaf, id, 0;
      children := new VectorMap();
    }
  }

  type PathMap = map<seq<Token>, TmpIndexNode>

  /** Node n at path p is the root of t; at says which node every path leads to. */
  ghost predicate Shows(at: PathMap, n: TmpIndexNode, p: seq<Token>, t: Trie)
    reads n, n.children
  {
    match t
    case Leaf(id, hits) => n.isLeaf && n.id == id && n.solutions == hits && n.children.data == []
    case Inner(kids) =>
      && !n.isLeaf
      && Toks(n.children.data) == Toks(kids)
      && forall i | 0 <= i < |kids| :: p + [kids[i].tok] in at && n.children.data[i].node == at[p + [kids[i].tok]]
  }

  lemma CodeNotEmpty(w: seq<Token>)
    requires IsCode(w, 1)
    ensures w != []
  {
  }

  class TmpIndex {
    const mRoot: TmpIndexNode
    var nextId: nat
    ghost var at: PathMap
    ghost var tree: Trie

    ghost function Repr(): set<object>
      reads this
    {
      {this} + (set p | p in at :: at[p]) + (set p | p in at :: at[p].children)
    }

    /** The nodes form the tree: one node for each path, sharing nothing. */
    ghost predicate Linked()
      reads this, Repr()
    {
      && [] in at && at[[]] == mRoot
      && Tidy(tree)
      && (forall p, q | p in at && q in at && p != q :: at[p] != at[q] && at[p].children != at[q].children)
      && (forall p: seq<Token> :: p in at <==> Descend(tree, p).Some?)
      && (forall p | p in at :: Shows(at, at[p], p, Descend(tree, p).value))
      && IdsBounded(tree, nextId)
    }

    /** As Linked, but for the entries of the node at p. */
    ghost predicate LinkedBut(p: seq<Token>)
      reads this, Repr()
    {
      && [] in at && at[[]] == mRoot && p in at
      && Tidy(tree)
      && (forall p, q | p in at && q in at && p != q :: at[p] != at[q] && at[p].children != at[q].children)
      && (forall p: seq<Token> :: p in at <==> Descend(tree, p).Some?)
      && (forall q | q in at && q != p :: Shows(at, at[q], q, Descend(tree, q).value))
      && IdsBounded(tree, nextId)
    }

    /** Between calls the tree is a well-formed index, or still empty. */
    ghost predicate Valid()
      reads this, Repr()
    {
      Linked() && (WellFormed(tree, 1) || tree == Inner([]))
    }

    constructor ()
      ensures Valid() && tree == Inner([]) && fresh(Repr())
    {
      var root := new TmpIndexNode(false, 0);
      mRoot, nextId := root, 0;
      at, tree := map[[] := root], Inner([]);
    }

    /** The child of cur under tok, created when it is missing. */
    method ChildFor(cur: TmpIndexNode, tok: Token, asLeaf: bool, ghost p: seq<Token>)
        returns (node: TmpIndexNode, ghost index: nat)
      requires Linked() && p in at && at[p] == cur && !cur.isLeaf
      modifies this, cur.children
      ensures Linked() && p + [tok] in at && node == at[p + [tok]]
      ensures old(p + [tok] in at) ==> at == old(at) && tree == old(tree) && nextId == old(nextId)
      ensures !old(p + [tok] in at) ==>
                && CanGraft(old(tree), p, index, tok)
                && tree == Graft(old(tree), p, index, tok, if asLeaf then Leaf(nextId, 0) else Inner([]))
                && nextId == old(nextId) + (if asLeaf then 1 else 0)
                && fresh(node) && fresh(node.children)
                && at == old(at)[p + [tok] := node]
    {
      hide Descend, Graft, Tidy, IdsBounded, CanGraft, Sorted, Content, Toks;
      FindChild(at, tree, cur, tok, p);
      var i := cur.children.Index(tok, null);
      index := i;
      var found := cur.children.data[i].node;
      if found != null {
        return found, i;
      }
      node := AddChild(cur, tok, asLeaf, p, i, old(cur.children.data));
    }

    /** Inserts a formula and returns its leaf; a formula inserted before keeps its leaf. */
    method InsertData(w: seq<Token>) returns (leaf: TmpIndexNode)
      requires Valid() && IsCode(w, 1)
      modifies Repr()
      ensures Valid() && WellFormed(tree, 1) && fresh(Repr() - old(Repr()))
      ensures w in at && leaf == at[w] && leaf.isLeaf
      ensures forall q :: IsLeafPath(tree, q) <==> q == w || IsLeafPath(old(tree), q)
      ensures forall q :: IsLeafPath(old(tree), q) ==> IsLeafPath(tree, q) && LeafAt(tree, q) == LeafAt(old(tree), q)
      ensures IsLeafPath(old(tree), w) ==> tree == old(tree) && at == old(at) && nextId == old(nextId)
      ensures !IsLeafPath(old(tree), w) ==> nextId == old(nextId) + 1 && LeafAt(tree, w) == Leaf(nextId, 0)
    {
      hide Linked, Growing, SameLeaves, IsLeafPath, LeafAt, WellFormed, Descend, Shows, IsCode;
      ghost var tree0 := tree;
      var currentNode := DescendTo(w);
      ghost var before := tree;
      leaf := LeafStep(currentNode, w);
      AsBefore(tree0, before, tree, w);
    }

    /** The node behind i tokens of w is reached; only inner nodes were added, and none when w is known. */
    ghost predicate Reached(node: TmpIndexNode, w: seq<Token>, i: nat, tree0: Trie, at0: PathMap)
      reads this, Repr()
    {
      && Linked() && i <= |w| && w[..i] in at && node == at[w[..i]] && Growing(tree, 1, w[..i])
      && SameLeaves(tree0, tree) && (IsLeafPath(tree0, w) ==> tree == tree0 && at == at0)
    }

    /** The tree as a value, as the walks over the nodes see it. */
    method Read() returns (t: Trie)
      requires Linked()
      ensures t == tree
    {
      t := ReadNode(mRoot, []);
    }

    method ReadNode(n: TmpIndexNode, ghost p: seq<Token>) returns (t: Trie)
      requires Linked() && p in at && at[p] == n
      ensures Linked() && Descend(tree, p) == Some(t)
      decreases Descend(tree, p).value
    {
      hide Linked, Shows, Descend;
      NodeShown(this, p);
      if n.isLeaf {
        return Leaf(n.id, n.solutions);
      }
      var kids: seq<Edge<Trie>> := [];
      ghost var shown := Descend(tree, p).value.kids;
      while |kids| < |n.children.data|
        invariant Linked() && |kids| <= |n.children.data| == |shown| && kids == shown[..|kids|]
      {
        var e := n.children.data[|kids|];
        KidOf(this, p, |kids|);
        var kid := ReadNode(e.node, p + [e.tok]);
        kids := kids + [Edge(e.tok, kid)];
      }
      assert kids == shown;
      t := Inner(kids);
    }

    /** Goes down to the parent of the leaf of a word, creating inner nodes on the way. */
    method DescendTo(w: seq<Token>) returns (currentNode: TmpIndexNode)
      requires Valid() && IsCode(w, 1)
      modifies Repr()
      ensures Linked() && fresh(Repr() - old(Repr())) && w != []
      ensures w[..|w| - 1] in at && currentNode == at[w[..|w| - 1]] && Growing(tree, 1, w[..|w| - 1])
      ensures nextId == old(nextId) && SameLeaves(old(tree), tree)
      ensures IsLeafPath(old(tree), w) ==> tree == old(tree) && at == old(at)
    {
      hide Reached, Valid, Linked, Growing, SameLeaves, IsLeafPath, IsCode;
      CodeNotEmpty(w);
      ghost var tree0, at0 := tree, at;
      var size := |w|;
      currentNode := mRoot;
      RootReached(this, w);
      var i := 0;
      while i < size - 1
        invariant 0 <= i <= size - 1
        invariant Reached(currentNode, w, i, tree0, at0)
        invariant fresh(Repr() - old(Repr())) && nextId == old(nextId)
      {
        currentNode := ChildStepSince(currentNode, w, i, tree0, at0);
        i := i + 1;
      }
      AtReached(this, currentNode, w, i, tree0, at0);
    }

    /** One more database entry for a leaf. */
    method CountSolution(leaf: TmpIndexNode, ghost w: seq<Token>)
      requires Valid() && WellFormed(tree, 1) && IsLeafPath(tree, w) && w in at && leaf == at[w]
      modifies this`tree, leaf
      ensures Valid() && WellFormed(tree, 1) && at == old(at)
      ensures forall q :: IsLeafPath(tree, q) <==> IsLeafPath(old(tree), q)
      ensures forall q :: IsLeafPath(tree, q) ==>
                LeafAt(tree, q) == if q == w then Leaf(LeafAt(old(tree), q).id, LeafAt(old(tree), q).hits + 1)
                    else LeafAt(old(tree), q)
    {
      hide Tidy, WellFormed, IsLeafPath, LeafAt, Descend, Replace, Shows, IdsBounded;
      LeafNode(this, w);
      LeafDescends(tree, w);
      ghost var x := Leaf(LeafAt(tree, w).id, LeafAt(tree, w).hits + 1);
      ghost var tree0 := tree;
      leaf.solutions := leaf.solutions + 1;
      tree := Replace(tree, w, x);
      NewNodeShows(at, leaf, w, x);
      assert forall q | q in at && q != w :: Shows(at, at[q], q, Descend(tree0, q).value);
      Counted(this, tree0, w, x);
    }

    /** One step down the word, as seen from an earlier state of the index. */
    method ChildStepSince(cur: TmpIndexNode, w: seq<Token>, i: nat, ghost tree0: Trie, ghost at0: PathMap)
        returns (next: TmpIndexNode)
      requires IsCode(w, 1) && i < |w| - 1 && Reached(cur, w, i, tree0, at0)
      modifies Repr()
      ensures Reached(next, w, i + 1, tree0, at0)
      ensures fresh(Repr() - old(Repr())) && nextId == old(nextId)
    {
      hide Linked, Growing, SameLeaves, IsLeafPath, IsCode, Descend, LeafAt;
      ghost var before := tree;
      PrefixKnown(this, w, i + 1);
      next := ChildStep(cur, w, i);
      SameLeavesTrans(tree0, before, tree);
    }

    /** One step down the word, through an inner node. */
    method ChildStep(cur: TmpIndexNode, w: seq<Token>, i: nat) returns (next: TmpIndexNode)
      requires Linked() && IsCode(w, 1) && i < |w| - 1
      requires w[..i] in at && cur == at[w[..i]] && Growing(tree, 1, w[..i])
      modifies this, cur.children
      ensures Linked() && fresh(Repr() - old(Repr())) && nextId == old(nextId)
      ensures w[..i + 1] in at && next == at[w[..i + 1]] && Growing(tree, 1, w[..i + 1])
      ensures SameLeaves(old(tree), tree)
      ensures old(w[..i + 1] in at) ==> tree == old(tree) && at == old(at)
    {
      hide Descend, Graft, Tidy, IdsBounded, CanGraft, Growing, Shows, SameLeaves, Linked, NeedAfter;
      ghost var tree0, known := tree, w[..i + 1] in at;
      InnerAt(this, w, i);
      assert w[..i + 1] == w[..i] + [w[i]];
      ghost var index;
      next, index := ChildFor(cur, w[i], false, w[..i]);
      CodeNeeds(w, 1, i + 1);
      if !known {
        GrowInner(tree0, 1, w[..i], index, w[i]);
        GraftKeepsLeaves(tree0, w[..i], index, w[i], Inner([]));
      } else {
        PathInTree(this, w[..i + 1]);
        GrowDown(tree0, 1, w[..i], w[i]);
        LeavesUnchanged(tree0);
      }
    }

    /** The last step, to the leaf. */
    method LeafStep(cur: TmpIndexNode, w: seq<Token>) returns (leaf: TmpIndexNode)
      requires Linked() && IsCode(w, 1) && w != []
      requires w[..|w| - 1] in at && cur == at[w[..|w| - 1]] && Growing(tree, 1, w[..|w| - 1])
      modifies this, cur.children
      ensures Linked() && fresh(Repr() - old(Repr()))
      ensures WellFormed(tree, 1) && w in at && leaf == at[w] && leaf.isLeaf
      ensures forall q :: IsLeafPath(tree, q) <==> q == w || IsLeafPath(old(tree), q)
      ensures forall q :: IsLeafPath(old(tree), q) ==> IsLeafPath(tree, q) && LeafAt(tree, q) == LeafAt(old(tree), q)
      ensures IsLeafPath(old(tree), w) ==> tree == old(tree) && at == old(at) && nextId == old(nextId)
      ensures !IsLeafPath(old(tree), w) ==> nextId == old(nextId) + 1 && LeafAt(tree, w) == Leaf(nextId, 0)
    {
      hide Descend, Graft, Tidy, IdsBounded, CanGraft, Growing, Shows, Linked, NeedAfter, IsLeafPath, LeafAt,
           WellFormed;
      ghost var tree0, p, tok := tree, w[..|w| - 1], w[|w| - 1];
      InnerAt(this, w, |w| - 1);
      assert w == p + [tok] && w[..|w|] == w;
      ghost var known := w in at;
      ghost var index;
      leaf, index := ChildFor(cur, w[|w| - 1], true, p);
      CodeNeeds(w, 1, |w|);
      if !known {
        GrowLeaf(tree0, 1, p, index, tok, nextId);
        GraftAddsLeaf(tree0, p, index, tok, nextId);
      } else {
        CloseAt(tree0, p, tok) by {
          PathInTree(this, w);
        }
      }
      LeafNode(this, w);
    }

    /** Fills the entry that the lookup of a missing key left behind. */
    method AddChild(cur: TmpIndexNode, tok: Token, asLeaf: bool, ghost p: seq<Token>, ghost index: nat,
                    ghost data0: seq<Edge<TmpIndexNode?>>)
        returns (node: TmpIndexNode)
      requires LinkedBut(p) && at[p] == cur && Descend(tree, p).value.Inner?
      requires ShowsData(at, data0, p, Descend(tree, p).value.kids) && !cur.isLeaf
      requires cur.children.Valid() && p + [tok] !in at
      requires index <= |data0| && cur.children.data == data0[..index] + [Edge(tok, null)] + data0[index..]
      modifies this, cur.children
      ensures Linked() && CanGraft(old(tree), p, index, tok)
      ensures tree == Graft(old(tree), p, index, tok, if asLeaf then Leaf(nextId, 0) else Inner([]))
      ensures nextId == old(nextId) + (if asLeaf then 1 else 0)
      ensures fresh(node) && fresh(node.children) && at == old(at)[p + [tok] := node]
    {
      hide Descend, Graft, Tidy, IdsBounded, CanGraft, Sorted, Shows, ShowsData, Content, Toks;
      node := new TmpIndexNode(asLeaf, if asLeaf then nextId + 1 else 0);
      ghost var at0, tree0, x := at, tree, if asLeaf then Leaf(nextId + 1, 0) else Inner([]);
      ReadyToGraft(at, tree, p, index, tok, data0, cur.children.data);
      FoundAgain(cur.children.data, index, tok);
      var i := cur.children.Index(tok, null);
      SamePosition(cur.children.data, i, index);
      cur.children.Assign(i, node);
      if asLeaf {
        nextId := nextId + 1;
      }
      at := at[p + [tok] := node];
      tree := Graft(tree, p, index, tok, x);
      assert forall q | q in at0 && q != p :: Shows(at0, at0[q], q, Descend(tree0, q).value);
      NewNodeShows(at0, node, p + [tok], x);
      Relinked(at0, tree0, p, index, tok, x, node, cur, data0, if asLeaf then nextId - 1 else nextId);
    }

    lemma Relinked(at0: PathMap, tree0: Trie, p: seq<Token>, index: nat, tok: Token, x: Trie, node: TmpIndexNode,
                   cur: TmpIndexNode, data0: seq<Edge<TmpIndexNode?>>, bound: nat)
      requires CanGraft(tree0, p, index, tok) && IdsBounded(tree0, bound)
      requires (x == Inner([]) && nextId == bound) || (x.Leaf? && x.id == nextId == bound + 1)
      requires p in at0 && at0[p] == cur && !cur.isLeaf && p + [tok] !in at0 && [] in at0 && at0[[]] == mRoot
      requires forall q: seq<Token> :: q in at0 <==> Descend(tree0, q).Some?
      requires forall q | q in at0 && q != p :: Shows(at0, at0[q], q, Descend(tree0, q).value)
      requires ShowsData(at0, data0, p, Descend(tree0, p).value.kids)
      requires index <= |data0| && cur.children.data == data0[..index] + [Edge(tok, node)] + data0[index..]
      requires Shows(at0, node, p + [tok], x)
      requires at == at0[p + [tok] := node] && tree == Graft(tree0, p, index, tok, x)
      requires forall p, q | p in at && q in at && p != q :: at[p] != at[q] && at[p].children != at[q].children
      ensures Linked()
    {
      hide Descend, Graft, Tidy, IdsBounded, CanGraft, Sorted, Shows, ShowsData;
      PathsAfter(at0, tree0, p, index, tok, x, node);
      ShowsAfter(at0, tree0, p, index, tok, x, node, cur, data0);
      IdsAfter(tree0, p, index, tok, x, bound, nextId);
      NewNodeTidy(x);
      GraftTidy(tree0, p, index, tok, x);
    }
  }

  ghost predicate SameLeaves(t: Trie, t': Trie)
  {
    forall q | IsLeafPath(t, q) || IsLeafPath(t', q) ::
        IsLeafPath(t, q) && IsLeafPath(t', q) && LeafAt(t, q) == LeafAt(t', q)
  }

  lemma RootReached(idx: TmpIndex, w: seq<Token>)
    requires idx.Valid()
    ensures idx.Reached(idx.mRoot, w, 0, idx.tree, idx.at)
  {
    StartGrowing(idx);
    LeavesUnchanged(idx.tree);
    assert w[..0] == [];
  }

  lemma AtReached(idx: TmpIndex, node: TmpIndexNode, w: seq<Token>, i: nat, tree0: Trie, at0: PathMap)
    requires idx.Reached(node, w, i, tree0, at0)
    ensures idx.Linked() && i <= |w| && w[..i] in idx.at && node == idx.at[w[..i]] && Growing(idx.tree, 1, w[..i])
    ensures SameLeaves(tree0, idx.tree) && (IsLeafPath(tree0, w) ==> idx.tree == tree0 && idx.at == at0)
  {
  }

  lemma StartGrowing(idx: TmpIndex)
    requires idx.Valid()
    ensures idx.Linked() && [] in idx.at && idx.at[[]] == idx.mRoot && Growing(idx.tree, 1, [])
  {
  }

  /** With a leaf at w every prefix of w has a node. */
  lemma PrefixKnown(idx: TmpIndex, w: seq<Token>, i: nat)
    requires idx.Linked() && i <= |w|
    ensures IsLeafPath(idx.tree, w) ==> w[..i] in idx.at
  {
    DescendConcat(idx.tree, w[..i], w[i..]);
    assert w == w[..i] + w[i..];
  }

  lemma SameLeavesTrans(a: Trie, b: Trie, c: Trie)
    requires SameLeaves(a, b) && SameLeaves(b, c)
    ensures SameLeaves(a, c)
  {
  }

  lemma LeafDescends(t: Trie, w: seq<Token>)
    requires IsLeafPath(t, w)
    ensures Descend(t, w) == Some(LeafAt(t, w))
  {
  }

  /** A leaf replaced by one with the same id. */
  lemma LeafReplaced(t: Trie, w: seq<Token>, x: Trie, q: seq<Token>)
    requires WellFormed(t, 1) && IsLeafPath(t, w) && x.Leaf? && x.id == LeafAt(t, w).id
    ensures Descend(t, w).Some?
    ensures var t' := Replace(t, w, x);
            && (Descend(t', q).Some? <==> Descend(t, q).Some?)
            && (IsLeafPath(t', q) <==> IsLeafPath(t, q))
            && (IsLeafPath(t', q) ==> LeafAt(t', q) == if q == w then x else LeafAt(t, q))
    ensures var t' := Replace(t, w, x);
            q != w && Descend(t, q).Some? ==>
              || Descend(t', q) == Descend(t, q)
              || (Descend(t', q).value.Inner? && Descend(t, q).value.Inner?
                  && Toks(Descend(t', q).value.kids) == Toks(Descend(t, q).value.kids))
  {
    hide Replace, WellFormed, Tidy, Toks;
    WellFormedTidy(t, 1);
    ReplaceDescend(t, w, x, q);
    if w <= q {
      DescendConcat(t, w, q[|w|..]);
      assert q == w + q[|w|..];
    }
  }

  lemma Counted(idx: TmpIndex, tree0: Trie, w: seq<Token>, x: Trie)
    requires WellFormed(tree0, 1) && IdsBounded(tree0, idx.nextId)
    requires IsLeafPath(tree0, w) && Descend(tree0, w).Some? && idx.tree == Replace(tree0, w, x)
    requires x.Leaf? && x.id == LeafAt(tree0, w).id
    requires [] in idx.at && idx.at[[]] == idx.mRoot && w in idx.at
    requires forall p, q | p in idx.at && q in idx.at && p != q ::
               idx.at[p] != idx.at[q] && idx.at[p].children != idx.at[q].children
    requires forall p: seq<Token> :: p in idx.at <==> Descend(tree0, p).Some?
    requires forall q | q in idx.at && q != w :: Shows(idx.at, idx.at[q], q, Descend(tree0, q).value)
    requires Shows(idx.at, idx.at[w], w, x)
    ensures idx.Valid() && WellFormed(idx.tree, 1)
    ensures forall q :: IsLeafPath(idx.tree, q) <==> IsLeafPath(tree0, q)
    ensures forall q :: IsLeafPath(idx.tree, q) ==> LeafAt(idx.tree, q) == if q == w then x else LeafAt(tree0, q)
  {
    hide Replace, WellFormed, Tidy, Descend, Shows, IsLeafPath, LeafAt;
    LeafDescends(tree0, w);
    ReplaceWellFormed(tree0, 1, w, x.id, x.hits);
    WellFormedTidy(idx.tree, 1);
    forall q: seq<Token>
      ensures q in idx.at <==> Descend(idx.tree, q).Some?
      ensures IsLeafPath(idx.tree, q) <==> IsLeafPath(tree0, q)
      ensures IsLeafPath(idx.tree, q) ==> LeafAt(idx.tree, q) == if q == w then x else LeafAt(tree0, q)
    {
      LeafReplaced(tree0, w, x, q);
    }
    forall q | q in idx.at
      ensures Shows(idx.at, idx.at[q], q, Descend(idx.tree, q).value)
    {
      LeafReplaced(tree0, w, x, q);
      if q == w {
        LeafDescends(idx.tree, w);
      } else {
        SameShows(idx.at, idx.at, idx.at[q], q, Descend(tree0, q).value, Descend(idx.tree, q).value);
      }
    }
  }

  /** What the last step says of the tree before it holds of the tree before the insertion. */
  lemma AsBefore(tree0: Trie, before: Trie, after: Trie, w: seq<Token>)
    requires SameLeaves(tree0, before)
    requires forall q :: IsLeafPath(after, q) <==> q == w || IsLeafPath(before, q)
    requires forall q :: IsLeafPath(before, q) ==> IsLeafPath(after, q) && LeafAt(after, q) == LeafAt(before, q)
    ensures IsLeafPath(before, w) <==> IsLeafPath(tree0, w)
    ensures forall q :: IsLeafPath(after, q) <==> q == w || IsLeafPath(tree0, q)
    ensures forall q :: IsLeafPath(tree0, q) ==> IsLeafPath(after, q) && LeafAt(after, q) == LeafAt(tree0, q)
  {
  }

  lemma InnerAt(idx: TmpIndex, w: seq<Token>, i: nat)
    requires idx.Linked() && i <= |w| && w[..i] in idx.at && Growing(idx.tree, 1, w[..i])
    ensures !idx.at[w[..i]].isLeaf
  {
    GrowingNode(idx.tree, 1, w[..i]);
  }

  lemma NodeShown(idx: TmpIndex, p: seq<Token>)
    requires idx.Linked() && p in idx.at
    ensures Descend(idx.tree, p).Some?
    ensures var n, t := idx.at[p], Descend(idx.tree, p).value;
            if n.isLeaf then t == Leaf(n.id, n.solutions) else t.Inner? && |t.kids| == |n.children.data|
  {
    hide Tidy, IdsBounded, Descend;
    PathInTree(idx, p);
    var t := Descend(idx.tree, p).value;
    assert Shows(idx.at, idx.at[p], p, t);
    if t.Inner? {
      assert |Toks(idx.at[p].children.data)| == |Toks(t.kids)|;
    }
  }

  lemma KidOf(idx: TmpIndex, p: seq<Token>, i: nat)
    requires idx.Linked() && p in idx.at && !idx.at[p].isLeaf && i < |idx.at[p].children.data|
    ensures Descend(idx.tree, p).Some? && Descend(idx.tree, p).value.Inner?
    ensures var kids, e := Descend(idx.tree, p).value.kids, idx.at[p].children.data[i];
            && |kids| == |idx.at[p].children.data| && e.tok == kids[i].tok
            && p + [e.tok] in idx.at && idx.at[p + [e.tok]] == e.node
                && Descend(idx.tree, p + [e.tok]) == Some(kids[i].node)
  {
    hide Tidy, IdsBounded, Descend;
    PathInTree(idx, p);
    var kids := Descend(idx.tree, p).value.kids;
    assert Toks(idx.at[p].children.data)[i] == Toks(kids)[i];
    TidySorted(idx.tree, p);
    ChildAt(Descend(idx.tree, p).value, i);
    DescendChild(idx.tree, p, kids[i].tok);
  }

  lemma TidySorted(t: Trie, p: seq<Token>)
    requires Tidy(t) && Descend(t, p).Some? && Descend(t, p).value.Inner?
    ensures Sorted(Descend(t, p).value.kids)
  {
    hide Descend;
    TidyBelow(t, p);
  }

  lemma PathInTree(idx: TmpIndex, p: seq<Token>)
    requires idx.Linked() && p in idx.at
    ensures Descend(idx.tree, p).Some?
  {
  }

  lemma LeavesUnchanged(t: Trie)
    ensures SameLeaves(t, t)
  {
  }

  lemma GraftKeepsLeaves(tree: Trie, p: seq<Token>, index: nat, tok: Token, x: Trie)
    requires CanGraft(tree, p, index, tok) && x == Inner([])
    ensures SameLeaves(tree, Graft(tree, p, index, tok, x))
  {
    var tree' := Graft(tree, p, index, tok, x);
    DescendChild(tree, p, tok);
    forall q | IsLeafPath(tree, q) || IsLeafPath(tree', q)
      ensures IsLeafPath(tree, q) && IsLeafPath(tree', q) && LeafAt(tree, q) == LeafAt(tree', q)
    {
      LeavesAfterGraft(tree, p, index, tok, x, q);
    }
  }

  lemma GraftAddsLeaf(tree: Trie, p: seq<Token>, index: nat, tok: Token, id: nat)
    requires CanGraft(tree, p, index, tok)
    ensures var tree', w := Graft(tree, p, index, tok, Leaf(id, 0)), p + [tok];
            && !IsLeafPath(tree, w) && IsLeafPath(tree', w) && LeafAt(tree', w) == Leaf(id, 0)
            && (forall q :: IsLeafPath(tree', q) <==> q == w || IsLeafPath(tree, q))
            && (forall q :: IsLeafPath(tree, q) ==> IsLeafPath(tree', q) && LeafAt(tree', q) == LeafAt(tree, q))
  {
    var x := Leaf(id, 0);
    DescendChild(tree, p, tok);
    forall q
      ensures IsLeafPath(Graft(tree, p, index, tok, x), q) <==> q == p + [tok] || IsLeafPath(tree, q)
      ensures IsLeafPath(Graft(tree, p, index, tok, x), q) ==>
                LeafAt(Graft(tree, p, index, tok, x), q) == if q == p + [tok] then x else LeafAt(tree, q)
    {
      LeavesAfterGraft(tree, p, index, tok, x, q);
    }
  }

  /** The last token of the word was there already: it leads to a leaf. */
  lemma CloseAt(tree: Trie, p: seq<Token>, tok: Token)
    requires Growing(tree, 1, p) && Descend(tree, p + [tok]).Some? && NeedAfter(p + [tok], 1) == 0
    ensures WellFormed(tree, 1) && IsLeafPath(tree, p + [tok])
  {
    GrowingNode(tree, 1, p);
    DescendChild(tree, p, tok);
    NeedAfterSnoc(p, tok, 1);
    var kids := Descend(tree, p).value.kids;
    var e := kids[KeyIndex(kids, tok)];
    assert WellFormed(e.node, NeedAfter(p, 1) - 1 + e.tok.arity);
    GrowClose(tree, 1, p);
  }

  lemma LeafNode(idx: TmpIndex, w: seq<Token>)
    requires idx.Linked() && w in idx.at && IsLeafPath(idx.tree, w)
    ensures idx.at[w].isLeaf && idx.at[w].id == LeafAt(idx.tree, w).id
            && idx.at[w].solutions == LeafAt(idx.tree, w).hits
    ensures idx.at[w].children.data == []
  {
    assert Shows(idx.at, idx.at[w], w, Descend(idx.tree, w).value);
  }

  lemma NewNodeTidy(x: Trie)
    requires x == Inner([]) || x.Leaf?
    ensures Tidy(x)
  {
  }

  lemma NewNodeShows(at: PathMap, node: TmpIndexNode, p: seq<Token>, x: Trie)
    requires node.children.data == [] && (if node.isLeaf then x == Leaf(node.id, node.solutions) else x == Inner([]))
    ensures Shows(at, node, p, x)
  {
  }

  lemma FoundAgain(data: seq<Edge<TmpIndexNode?>>, index: nat, tok: Token)
    requires Sorted(data) && index < |data| && data[index].tok == tok
    ensures tok in Content(data)
  {
    ContentAt(data, index);
  }

  lemma SamePosition(data: seq<Edge<TmpIndexNode?>>, i: nat, j: nat)
    requires Sorted(data) && i < |data| && j < |data| && data[i].tok == data[j].tok
    ensures i == j
  {
  }

  lemma PathsAfter(at: PathMap, tree: Trie, p: seq<Token>, index: nat, tok: Token, x: Trie, node: TmpIndexNode)
    requires CanGraft(tree, p, index, tok) && (x == Inner([]) || x.Leaf?)
    requires forall q: seq<Token> :: q in at <==> Descend(tree, q).Some?
    ensures forall q: seq<Token> :: q in at[p + [tok] := node] <==> Descend(Graft(tree, p, index, tok, x), q).Some?
  {
    forall q: seq<Token>
      ensures q in at[p + [tok] := node] <==> Descend(Graft(tree, p, index, tok, x), q).Some?
    {
      GraftDescend(tree, p, index, tok, x, q);
      if p + [tok] <= q && q != p + [tok] {
        DescendConcat(tree, p + [tok], q[|p| + 1..]);
        DescendChild(tree, p, tok);
        assert q == (p + [tok]) + q[|p| + 1..];
      }
    }
  }

  /** Every node shows its part of the grown tree. */
  lemma ShowsAfter(at: PathMap, tree: Trie, p: seq<Token>, index: nat, tok: Token, x: Trie, node: TmpIndexNode,
                   cur: TmpIndexNode, data0: seq<Edge<TmpIndexNode?>>)
    requires CanGraft(tree, p, index, tok) && (x == Inner([]) || x.Leaf?)
    requires p in at && at[p] == cur && !cur.isLeaf && p + [tok] !in at
    requires forall q: seq<Token> :: q in at <==> Descend(tree, q).Some?
    requires forall q | q in at && q != p :: Shows(at, at[q], q, Descend(tree, q).value)
    requires ShowsData(at, data0, p, Descend(tree, p).value.kids)
    requires index <= |data0| && cur.children.data == data0[..index] + [Edge(tok, node)] + data0[index..]
    requires Shows(at, node, p + [tok], x)
    ensures var at', tree' := at[p + [tok] := node], Graft(tree, p, index, tok, x);
            forall q | q in at' :: Descend(tree', q).Some? && Shows(at', at'[q], q, Descend(tree', q).value)
  {
    var at', tree' := at[p + [tok] := node], Graft(tree, p, index, tok, x);
    forall q | q in at'
      ensures Descend(tree', q).Some? && Shows(at', at'[q], q, Descend(tree', q).value)
    {
      hide Graft, Tidy, CanGraft, Toks;
      GraftDescend(tree, p, index, tok, x, q);
      if q == p + [tok] {
        assert q[|p| + 1..] == [];
        SameShows(at, at', node, q, x, x);
      } else if q == p {
        DataAfter(at, p, index, tok, x, node, data0, Descend(tree, p).value.kids);
      } else {
        if p + [tok] <= q {
          NothingBelow(tree, p, tok, q);
        }
        SameShows(at, at', at[q], q, Descend(tree, q).value, Descend(tree', q).value);
      }
    }
  }

  lemma NothingBelow(tree: Trie, p: seq<Token>, tok: Token, q: seq<Token>)
    requires Descend(tree, p + [tok]).None? && p + [tok] <= q
    ensures Descend(tree, q).None?
  {
    DescendConcat(tree, p + [tok], q[|p| + 1..]);
    assert q == (p + [tok]) + q[|p| + 1..];
  }

  /** Nodes are shown by their keys, so a tree with the same keys is shown as well. */
  lemma SameShows(at: PathMap, at': PathMap, n: TmpIndexNode, q: seq<Token>, t: Trie, t': Trie)
    requires Shows(at, n, q, t) && forall r | r in at :: r in at' && at'[r] == at[r]
    requires t' == t || (t.Inner? && t'.Inner? && Toks(t'.kids) == Toks(t.kids))
    ensures Shows(at', n, q, t')
  {
    if t'.Inner? {
      assert forall i | 0 <= i < |t'.kids| :: t'.kids[i].tok == Toks(t'.kids)[i] == Toks(t.kids)[i] == t.kids[i].tok;
    }
  }

  lemma DataAfter(at: PathMap, p: seq<Token>, index: nat, tok: Token, x: Trie, node: TmpIndexNode,
                  data0: seq<Edge<TmpIndexNode?>>, kids: seq<Edge<Trie>>)
    requires ShowsData(at, data0, p, kids) && index <= |data0| && p + [tok] !in at
    ensures ShowsData(at[p + [tok] := node], data0[..index] + [Edge(tok, node)] + data0[index..], p,
                      InsertAt(kids, index, Edge(tok, x)))
  {
    var data, kids', at' := data0[..index] + [Edge(tok, node)] + data0[index..], InsertAt(kids, index, Edge(tok, x)),
        at[p + [tok] := node];
    forall i | 0 <= i < |kids'|
      ensures data[i].tok == kids'[i].tok && p + [kids'[i].tok] in at' && data[i].node == at'[p + [kids'[i].tok]]
    {
      if i == index {
        assert kids'[i] == Edge(tok, x);
      } else {
        var j := if i < index then i else i - 1;
        assert kids'[i] == kids[j] && data[i] == data0[j];
        assert Toks(data0)[j] == Toks(kids)[j];
        assert (p + [kids[j].tok])[|p|] == kids[j].tok && (p + [tok])[|p|] == tok;
      }
    }
  }

  lemma IdsAfter(tree: Trie, p: seq<Token>, index: nat, tok: Token, x: Trie, bound: nat, bound': nat)
    requires CanGraft(tree, p, index, tok) && Descend(tree, p + [tok]).None? && IdsBounded(tree, bound)
    requires (x == Inner([]) && bound' == bound) || (x.Leaf? && x.id == bound' == bound + 1)
    ensures IdsBounded(Graft(tree, p, index, tok, x), bound')
  {
    var tree' := Graft(tree, p, index, tok, x);
    forall q
      ensures IsLeafPath(tree', q) <==> (q == p + [tok] && x.Leaf?) || IsLeafPath(tree, q)
      ensures IsLeafPath(tree', q) ==> LeafAt(tree', q) == if q == p + [tok] then x else LeafAt(tree, q)
    {
      LeavesAfterGraft(tree, p, index, tok, x, q);
    }
  }

  lemma LeavesAfterGraft(tree: Trie, p: seq<Token>, index: nat, tok: Token, x: Trie, q: seq<Token>)
    requires CanGraft(tree, p, index, tok) && Descend(tree, p + [tok]).None? && (x == Inner([]) || x.Leaf?)
    ensures var tree' := Graft(tree, p, index, tok, x);
            && (IsLeafPath(tree', q) <==> (q == p + [tok] && x.Leaf?) || IsLeafPath(tree, q))
            && (IsLeafPath(tree', q) ==> LeafAt(tree', q) == if q == p + [tok] then x else LeafAt(tree, q))
  {
    GraftDescend(tree, p, index, tok, x, q);
    if p + [tok] <= q {
      DescendConcat(tree, p + [tok], q[|p| + 1..]);
      assert q == (p + [tok]) + q[|p| + 1..];
    }
  }

  /** The entries of an inner node at p. */
  ghost predicate ShowsData(at: PathMap, data: seq<Edge<TmpIndexNode?>>, p: seq<Token>, kids: seq<Edge<Trie>>)
  {
    && Toks(data) == Toks(kids)
    && forall i | 0 <= i < |kids| :: p + [kids[i].tok] in at && data[i].node == at[p + [kids[i].tok]]
  }

  /** What a lookup in the child map of the node at p finds. */
  lemma FindChild(at: PathMap, tree: Trie, cur: TmpIndexNode, tok: Token, p: seq<Token>)
    requires Tidy(tree) && Descend(tree, p).Some? && Shows(at, cur, p, Descend(tree, p).value) && !cur.isLeaf
    requires forall q: seq<Token> :: q in at <==> Descend(tree, q).Some?
    ensures cur.children.Valid() && Descend(tree, p).value.Inner?
    ensures tok in Content(cur.children.data) <==> p + [tok] in at
    ensures tok in Content(cur.children.data) ==> Content(cur.children.data)[tok] == at[p + [tok]]
  {
    var kids := Descend(tree, p).value.kids;
    TidyBelow(tree, p);
    KeysAgree(cur.children.data, kids, tok);
    DescendChild(tree, p, tok);
  }

  lemma ReadyToGraft(at: PathMap, tree: Trie, p: seq<Token>, index: nat, tok: Token, data0: seq<Edge<TmpIndexNode?>>,
                     data: seq<Edge<TmpIndexNode?>>)
    requires Tidy(tree) && Descend(tree, p).Some? && Descend(tree, p).value.Inner? && Descend(tree, p + [tok]).None?
    requires ShowsData(at, data0, p, Descend(tree, p).value.kids)
    requires index <= |data0| && data == data0[..index] + [Edge(tok, null)] + data0[index..] && Sorted(data)
    ensures CanGraft(tree, p, index, tok)
  {
    var kids := Descend(tree, p).value.kids;
    DescendChild(tree, p, tok);
    forall x: Trie
      ensures Sorted(InsertAt(kids, index, Edge(tok, x)))
    {
      var kids' := InsertAt(kids, index, Edge(tok, x));
      forall i | 0 <= i < |kids'|
        ensures kids'[i].tok == data[i].tok
      {
        if i < index {
          assert Toks(data0)[i] == Toks(kids)[i];
        } else if i > index {
          assert Toks(data0)[i - 1] == Toks(kids)[i - 1];
        }
      }
    }
  }

  lemma KeysAgree(data: seq<Edge<TmpIndexNode?>>, kids: seq<Edge<Trie>>, tok: Token)
    requires Toks(data) == Toks(kids) && Sorted(kids)
    ensures Sorted(data)
    ensures HasKey(data, tok) <==> HasKey(kids, tok)
    ensures tok in Content(data) <==> HasKey(kids, tok)
    ensures HasKey(kids, tok) ==> KeyIndex(kids, tok) < |data| && data[KeyIndex(kids, tok)].tok == tok
    ensures HasKey(kids, tok) ==> Content(data)[tok] == data[KeyIndex(kids, tok)].node
  {
    assert forall i | 0 <= i < |data| :: data[i].tok == Toks(data)[i] == Toks(kids)[i] == kids[i].tok;
    if HasKey(kids, tok) {
      ContentAt(data, KeyIndex(kids, tok));
    }
  }

  lemma {:induction false} TidyBelow(t: Trie, p: seq<Token>)
    requires Tidy(t) && Descend(t, p).Some?
    ensures Tidy(Descend(t, p).value)
    decreases |p|
  {
    if p != [] {
      TidyBelow(Child(t, p[0]).value, p[1..]);
    }
  }

  lemma DescendChild(t: Trie, p: seq<Token>, tok: Token)
    requires Descend(t, p).Some?
    ensures Descend(t, p + [tok]) == Child(Descend(t, p).value, tok)
  {
    DescendConcat(t, p, [tok]);
    var c := Descend(t, p).value;
    assert [tok][1..] == [];
  }

  /** Leaf ids are distinct and were handed out up to bound. */
  ghost predicate IdsBounded(t: Trie, bound: nat)
  {
    && (forall p | IsLeafPath(t, p) :: 0 < LeafAt(t, p).id <= bound)
    && forall p, q | IsLeafPath(t, p) && IsLeafPath(t, q) && LeafAt(t, p).id == LeafAt(t, q).id :: p == q
  }
}
