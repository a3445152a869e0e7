/** Searching what has been indexed: the index builder keeps what the pagination relies on, and
    the entries that a search pages through are those of the indexed instances of the query. */
module IndexedSearch {
  import opened Tokens
  import opened Terms
  import opened Tries
  import opened TmpIndexes
  import opened Queries
  import opened SearchSpec
  import opened IndexBuilders
  import A = Answers

  /** The matches are the leaves at instances of the query. */
  lemma {:induction false} InstancesAre(q: Query, ss: seq<Spot>, t: Trie)
    requires forall s | s in ss :: s.node.Leaf?
    ensures t in Instances(q, ss) <==> exists s :: s in ss && IsInstance(q, s.path) && s.node == t
    decreases |ss|
  {
    hide IsInstance;
    if ss != [] {
      InstancesAre(q, ss[1..], t);
      assert forall s :: s in ss <==> s == ss[0] || s in ss[1..];
    }
  }

  lemma MatchesAre(q: Query, tree: Trie, t: Trie)
    requires WellFormed(tree, 1)
    ensures t in Matches(q, tree) <==> exists w :: IsLeafPath(tree, w) && IsInstance(q, w) && LeafAt(tree, w) == t
  {
    hide IsInstance, Leaves, WellFormed;
    LeavesExact(tree);
    var all := Leaves([], tree);
    InstancesAre(q, all, t);
    if t in Matches(q, tree) {
      var s :| s in all && IsInstance(q, s.path) && s.node == t;
      assert IsLeafPath(tree, s.path) && LeafAt(tree, s.path) == t;
    }
    forall w | IsLeafPath(tree, w) && IsInstance(q, w) && LeafAt(tree, w) == t
      ensures t in Matches(q, tree)
    {
      assert Spot(w, t) in all;
    }
  }

  /** In an index that conserves hits every match counts its entries. */
  lemma MatchesCount(tree: Trie, nextId: nat, data: Data, q: Query)
    requires WellFormed(tree, 1) && Conserved(tree, nextId, data)
    ensures forall t | t in Matches(q, tree) :: |A.Entries(data, t.id)| == t.hits
  {
    hide IsInstance, WellFormed, IsLeafPath, LeafAt, Matches, A.Entries;
    forall t | t in Matches(q, tree)
      ensures |A.Entries(data, t.id)| == t.hits
    {
      MatchesAre(q, tree, t);
      var w :| IsLeafPath(tree, w) && IsInstance(q, w) && LeafAt(tree, w) == t;
    }
  }

  /** An index that conserves hits meets the premise of the pagination. */
  lemma ConservedIsConsistent(o: A.Options, tree: Trie, nextId: nat, data: Data, q: Query)
    requires WellFormed(tree, 1) && Conserved(tree, nextId, data) && A.SumHits(o, Matches(q, tree)) < TWO_32
    ensures A.Consistent(o, data, Matches(q, tree))
  {
    hide Conserved, WellFormed, Matches, A.SumHits, A.Entries;
    MatchesCount(tree, nextId, data, q);
  }

  lemma {:induction false} AllEntriesAre(data: Data, leaves: seq<Trie>, info: A.FormulaInfo)
    requires forall t | t in leaves :: t.Leaf?
    ensures info in A.AllEntries(data, leaves) <==> exists t :: t in leaves && info in A.Entries(data, t.id)
    decreases |leaves|
  {
    hide A.Entries;
    if leaves != [] {
      AllEntriesAre(data, leaves[1..], info);
      assert forall t :: t in leaves <==> t == leaves[0] || t in leaves[1..];
    }
  }

  /** A search over an index that conserves hits: the total and the page of answers, where the
      entries paged through are exactly those recorded for indexed instances of the query. */
  lemma SearchOfIndexed(o: A.Options, p: A.Page, tree: Trie, nextId: nat, data: Data, q: Query)
    requires WellFormed(tree, 1) && Conserved(tree, nextId, data) && A.SumHits(o, Matches(q, tree)) < TWO_32
    requires p.offset + p.size < TWO_32 && o.includeHits
    ensures var found, all := A.Collect(o, data, A.Clamp(p), Matches(q, tree), A.NOTHING_FOUND),
            A.AllEntries(data, Matches(q, tree));
            && found.total == A.Min(|all|, p.maxTotal)
            && found.answers == A.Slice(all, p.offset, A.Min(p.offset + p.size, p.maxTotal))
            && forall info ::
                 info in all <==> exists w ::
                     IsLeafPath(tree, w) && IsInstance(q, w) && info in EntriesAt(tree, data, w)
  {
    hide IsInstance, WellFormed, IsLeafPath, LeafAt, Matches, A.SumHits, A.Entries, A.Collect, A.Slice, A.AllEntries,
         A.Consistent, A.Clamp;
    var all := A.AllEntries(data, Matches(q, tree));
    ConservedIsConsistent(o, tree, nextId, data, q);
    A.PageIsSlice(o, data, p, Matches(q, tree));
    MatchesCount(tree, nextId, data, q);
    A.EntriesCounted(o, data, Matches(q, tree));
    forall info
      ensures info in all <==> exists w :: IsLeafPath(tree, w) && IsInstance(q, w) && info in EntriesAt(tree, data, w)
    {
      AllEntriesAre(data, Matches(q, tree), info);
      if info in all {
        var t :| t in Matches(q, tree) && info in A.Entries(data, t.id);
        MatchesAre(q, tree, t);
      }
      forall w | IsLeafPath(tree, w) && IsInstance(q, w) && info in EntriesAt(tree, data, w)
        ensures info in all
      {
        MatchesAre(q, tree, LeafAt(tree, w));
      }
    }
  }
}
