/** The pages that come out right in every search, stated for indices and queries. */
module WrongPages {
  import opened Tokens
  import opened Terms
  import opened Tries
  import opened TmpIndexes
  import opened Queries
  import opened SearchSpec
  import opened IndexBuilders
  import opened IndexedSearch
  import opened Wrappers
  import A = Answers

  /** An index as the builder keeps it: conserved hits, distinct ids, and no leaf without a hit. */
  ghost predicate Kept(tree: Trie, nextId: nat, data: Data)
  {
    && WellFormed(tree, 1) && Conserved(tree, nextId, data) && IdsBounded(tree, nextId)
    && forall w | IsLeafPath(tree, w) :: LeafAt(tree, w).hits > 0
  }

  /** The answers of a search are the requested slice of the entries of all matches. */
  ghost predicate SearchRight(o: A.Options, data: Data, p: A.Page, tree: Trie, q: Query)
  {
    A.Collect(o, data, A.Clamp(p), Matches(q, tree), A.NOTHING_FOUND).answers
    == A.Slice(A.AllEntries(data, Matches(q, tree)), p.offset, A.Min(p.offset + p.size, p.maxTotal))
  }

  // ---------------------------------------------------------------- a row of leaves

  function Mark(i: nat): Token
    requires i < 2
  {
    Token(200 + i, 0)
  }

  /** The index of the given leaves, one below each mark. */
  function Row(leaves: seq<Trie>): Trie
    requires |leaves| <= 2
  {
    Inner(seq(|leaves|, i requires 0 <= i < |leaves| => Edge(Mark(i), leaves[i])))
  }

  /** The query of a single variable. */
  const ANYTHING := Query([QVAR(97, 0)], map[], map[])

  lemma AnythingIsQuery()
    ensures WellFormedQuery(ANYTHING)
  {
    var e := ANYTHING.expr;
    assert NumberedAt(e, 0);
    assert Shaped(e, 1, 0) && Shaped(e, 0, 1);
  }

  lemma AnythingMatches(w: seq<Token>)
    requires IsCode(w, 1)
    ensures IsInstance(ANYTHING, w)
  {
    var e, sub: Substitution := ANYTHING.expr, [w];
    assert Specials(e, 1) == 1;
    assert Fill(e, 1, sub) == [] && Fill(e, 0, sub) == w + [];
    assert SolvesFrom(ANYTHING, 0, 0, sub);
  }

  lemma {:induction false} RowLeaves(leaves: seq<Trie>, i: nat)
    requires |leaves| <= 2 && i <= |leaves| && forall t | t in leaves :: t.Leaf?
    ensures var ss := LeavesFrom([], Row(leaves), i);
            |ss| == |leaves| - i && forall j | i <= j < |leaves| :: ss[j - i] == Spot([Mark(j)], leaves[j])
    decreases |leaves| - i
  {
    if i < |leaves| {
      RowLeaves(leaves, i + 1);
      assert [] + [Mark(i)] == [Mark(i)];
    }
  }

  lemma {:induction false} AllInstances(ss: seq<Spot>)
    requires forall j | 0 <= j < |ss| :: IsCode(ss[j].path, 1)
    ensures |Instances(ANYTHING, ss)| == |ss| && forall j | 0 <= j < |ss| :: Instances(ANYTHING, ss)[j] == ss[j].node
    decreases |ss|
  {
    hide IsInstance, IsCode, ANYTHING;
    if ss != [] {
      AnythingMatches(ss[0].path);
      AllInstances(ss[1..]);
      assert Instances(ANYTHING, ss) == [ss[0].node] + Instances(ANYTHING, ss[1..]);
    }
  }

  lemma RowMatches(leaves: seq<Trie>)
    requires |leaves| <= 2 && forall t | t in leaves :: t.Leaf?
    ensures Matches(ANYTHING, Row(leaves)) == leaves
  {
    RowLeaves(leaves, 0);
    var ss := Leaves([], Row(leaves));
    forall j | 0 <= j < |ss|
      ensures IsCode(ss[j].path, 1)
    {
      assert ss[j].path[1..] == [];
    }
    AllInstances(ss);
  }

  lemma LeafEnds(leaf: Trie, w: seq<Token>)
    requires leaf.Leaf? && Descend(leaf, w).Some?
    ensures w == []
  {
  }

  lemma RowPath(leaves: seq<Trie>, w: seq<Token>)
    requires 1 <= |leaves| <= 2 && forall t | t in leaves :: t.Leaf?
    ensures IsLeafPath(Row(leaves), w) ==>
              exists i :: 0 <= i < |leaves| && w == [Mark(i)] && LeafAt(Row(leaves), w) == leaves[i]
  {
    var t := Row(leaves);
    if IsLeafPath(t, w) {
      var i := KeyIndex(t.kids, w[0]);
      assert t.kids[i] == Edge(Mark(i), leaves[i]);
      assert Descend(t, w) == Descend(leaves[i], w[1..]);
      assert leaves[i] in leaves;
      LeafEnds(leaves[i], w[1..]);
      assert w == [w[0]] + w[1..];
    }
  }

  lemma MarksIncrease()
    ensures Mark(0).Rank() < Mark(1).Rank()
  {
  }

  lemma RowWellFormed(leaves: seq<Trie>)
    requires 1 <= |leaves| <= 2 && forall t | t in leaves :: t.Leaf?
    ensures WellFormed(Row(leaves), 1)
  {
    hide Token.Rank;
    MarksIncrease();
  }

  lemma RowIsKept(data: Data, leaves: seq<Trie>)
    requires A.FewLeaves(data, leaves) && forall t | t in leaves :: t.Leaf? && |A.Entries(data, t.id)| == t.hits
    ensures Kept(Row(leaves), |leaves|, data)
  {
    hide IsLeafPath, LeafAt, WellFormed, Row, A.Entries;
    RowWellFormed(leaves);
    forall w | IsLeafPath(Row(leaves), w)
      ensures exists i :: 0 <= i < |leaves| && w == [Mark(i)] && LeafAt(Row(leaves), w) == leaves[i]
    {
      RowPath(leaves, w);
    }
  }

  // ---------------------------------------------------------------- right pages

  /** Every page that is not safe has an index and a query on which its answers are wrong. */
  lemma UnsafePageHasIndex(o: A.Options, p: A.Page) returns (tree: Trie, nextId: nat, data: Data)
    requires o.includeHits && !A.SafePage(p)
    ensures Kept(tree, nextId, data) && A.SumHits(o, Matches(ANYTHING, tree)) < TWO_32
            && !SearchRight(o, data, p, tree, ANYTHING)
  {
    hide A.SafePage, A.Collect, Row, A.Entries, A.SumHits;
    var leaves;
    data, leaves := A.UnsafePageWrong(o, p);
    tree, nextId := Row(leaves), |leaves|;
    RowMatches(leaves);
    RowIsKept(data, leaves);
  }

  /** A page comes out right in every search exactly when it is safe. */
  lemma SearchesExactlyRight(o: A.Options, p: A.Page)
    requires o.includeHits
    ensures A.SafePage(p) <==>
            forall tree, nextId, data, q |
              Kept(tree, nextId, data) && WellFormedQuery(q) && A.SumHits(o, Matches(q, tree)) < TWO_32 ::
              SearchRight(o, data, p, tree, q)
  {
    hide A.SafePage, A.Collect, A.SumHits, Matches, Conserved, IdsBounded, WellFormed, WellFormedQuery;
    forall tree, nextId, data, q |
      A.SafePage(p) && Kept(tree, nextId, data) && WellFormedQuery(q) && A.SumHits(o, Matches(q, tree)) < TWO_32
      ensures SearchRight(o, data, p, tree, q)
    {
      ConservedIsConsistent(o, tree, nextId, data, q);
      A.SafePageRight(o, data, p, Matches(q, tree));
    }
    if !A.SafePage(p) {
      var tree, nextId, data := UnsafePageHasIndex(o, p);
      AnythingIsQuery();
    }
  }
}
