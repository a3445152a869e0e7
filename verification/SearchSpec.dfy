/** The search as a recursion over the query, and its meaning: it visits exactly the leaves
    whose path is an instance of the query, in trie order. */
module SearchSpec {
  import opened Tokens
  import opened Terms
  import opened Tries
  import opened Queries
  import opened Wrappers

  /** What one turn of the search loop does: visit a matching leaf, or only move. */
  datatype Turn = Step | Visit(leaf: Trie)

  /** The childless edges of t from i on whose token is a number within limits. */
  ghost function InRange(numbers: map<MeaningId, real>, limits: Interval, t: Trie, i: nat): seq<Spot>
    requires t.Inner? && i <= |t.kids|
    decreases |t.kids| - i
  {
    if i == |t.kids| then []
    else
      var rest := InRange(numbers, limits, t, i + 1);
      if ValidSubst(numbers, limits, t.kids[i].tok) then [Spot([t.kids[i].tok], t.kids[i].node)] + rest else rest
  }

  /** The ways to solve the special at token k from node t: what it binds, and where that leads. */
  ghost function Alternatives(q: Query, t: Trie, k: nat): seq<Spot>
    requires k < |q.expr| && !q.expr[k].CONST?
  {
    if q.expr[k].QVAR? then Spots([], t, 1)
    else if t.Inner? && q.expr[k].meaningId in q.bounds then InRange(q.numbers, q.bounds[q.expr[k].meaningId], t, 0)
    else []
  }

  /** All turns of the search that starts at node t and token k under the bindings b. */
  ghost function Run(q: Query, t: Trie, k: nat, b: Substitution): (r: seq<Turn>)
    requires k <= |q.expr|
    ensures r != []
    decreases |q.expr| - k, 0
  {
    if k == |q.expr| then [Visit(t)]
    else if q.expr[k].CONST? then
      var next := Child(t, Token(q.expr[k].meaningId, q.expr[k].arity));
      [Step] + if next.None? then [] else Run(q, next.value, k + 1, b)
    else if q.expr[k].special < |b| then
      var next := Descend(t, b[q.expr[k].special]);
      [Step] + if next.None? then [] else Run(q, next.value, k + 1, b)
    else
      [Step] + RunEach(q, Alternatives(q, t, k), k + 1, b)
  }

  ghost function RunEach(q: Query, alts: seq<Spot>, k: nat, b: Substitution): seq<Turn>
    requires k <= |q.expr|
    decreases |q.expr| - k, 1 + |alts|
  {
    if alts == [] then []
    else Run(q, alts[0].node, k, b + [alts[0].path]) + RunEach(q, alts[1..], k, b)
  }

  ghost function Visited(turns: seq<Turn>): seq<Trie>
  {
    if turns == [] then []
    else if turns[0].Visit? then [turns[0].leaf] + Visited(turns[1..])
    else Visited(turns[1..])
  }

  lemma {:induction false} VisitedConcat(a: seq<Turn>, b: seq<Turn>)
    ensures Visited(a + b) == Visited(a) + Visited(b)
    decreases |a|
  {
    if a == [] {
      assert a + b == b;
    } else {
      assert (a + b)[1..] == a[1..] + b;
      VisitedConcat(a[1..], b);
    }
  }

  // ---------------------------------------------------------------- the specification

  /** Those spots whose path, cut after d tokens, matches the query from token k on. */
  ghost function Select(q: Query, k: nat, b: Substitution, d: nat, ss: seq<Spot>): seq<Trie>
    requires k <= |q.expr|
  {
    if ss == [] then []
    else
      var rest := Select(q, k, b, d, ss[1..]);
      if d <= |ss[0].path| && Accepts(q, k, b, ss[0].path[d..]) then [ss[0].node] + rest else rest
  }

  /** Keeps the spots whose path is an instance of the query. */
  ghost function Instances(q: Query, ss: seq<Spot>): (r: seq<Trie>)
    ensures (forall s | s in ss :: s.node.Leaf?) ==> forall t | t in r :: t.Leaf?
  {
    if ss == [] then []
    else if IsInstance(q, ss[0].path) then [ss[0].node] + Instances(q, ss[1..])
    else Instances(q, ss[1..])
  }

  /** The answer to a query: the leaves whose path is an instance, in trie order. */
  ghost function Matches(q: Query, root: Trie): (r: seq<Trie>)
    ensures forall t | t in r :: t.Leaf?
  {
    Instances(q, Leaves([], root))
  }

  lemma {:induction false} SelectConcat(q: Query, k: nat, b: Substitution, d: nat, x: seq<Spot>, y: seq<Spot>)
    requires k <= |q.expr|
    ensures Select(q, k, b, d, x + y) == Select(q, k, b, d, x) + Select(q, k, b, d, y)
    decreases |x|
  {
    if x == [] {
      assert x + y == y;
    } else {
      assert (x + y)[1..] == x[1..] + y;
      SelectConcat(q, k, b, d, x[1..], y);
    }
  }

  /** Two filters that agree on every spot of the list select the same. */
  lemma {:induction false} SelectAgree(q: Query, k: nat, b: Substitution, d: nat, k': nat, b': Substitution, d': nat,
                                       ss: seq<Spot>)
    requires k <= |q.expr| && k' <= |q.expr|
    requires forall s | s in ss :: (d <= |s.path| && Accepts(q, k, b, s.path[d..])) <==>
                                   (d' <= |s.path| && Accepts(q, k', b', s.path[d'..]))
    ensures Select(q, k, b, d, ss) == Select(q, k', b', d', ss)
    decreases |ss|
  {
    if ss != [] {
      SelectAgree(q, k, b, d, k', b', d', ss[1..]);
    }
  }

  lemma {:induction false} SelectNone(q: Query, k: nat, b: Substitution, d: nat, ss: seq<Spot>)
    requires k <= |q.expr|
    requires forall s | s in ss :: d <= |s.path| ==> !Accepts(q, k, b, s.path[d..])
    ensures Select(q, k, b, d, ss) == []
    decreases |ss|
  {
    if ss != [] {
      SelectNone(q, k, b, d, ss[1..]);
    }
  }

  lemma {:induction false} LeavesExtend(pre: seq<Token>, t: Trie)
    ensures forall s | s in Leaves(pre, t) :: pre <= s.path
    decreases t, 1, 0
  {
    if t.Inner? {
      LeavesFromExtend(pre, t, 0);
    }
  }

  lemma {:induction false} LeavesFromExtend(pre: seq<Token>, t: Trie, i: nat)
    requires t.Inner? && i <= |t.kids|
    ensures forall s | s in LeavesFrom(pre, t, i) :: pre <= s.path
    decreases t, 0, |t.kids| - i
  {
    if i < |t.kids| {
      LeavesExtend(pre + [t.kids[i].tok], t.kids[i].node);
      assert pre <= pre + [t.kids[i].tok];
      LeavesFromExtend(pre, t, i + 1);
    }
  }

  /** Below an accepted move along v the filter goes on behind v with one more query token. */
  lemma SelectBelow(q: Query, k: nat, b: Substitution, b': Substitution, pre: seq<Token>, v: seq<Token>, t: Trie)
    requires k < |q.expr|
    requires forall w: seq<Token> :: Accepts(q, k, b, v + w) <==> Accepts(q, k + 1, b', w)
    ensures Select(q, k, b, |pre|, Leaves(pre + v, t)) == Select(q, k + 1, b', |pre + v|, Leaves(pre + v, t))
  {
    LeavesExtend(pre + v, t);
    forall s | s in Leaves(pre + v, t)
      ensures Accepts(q, k, b, s.path[|pre|..]) <==> Accepts(q, k + 1, b', s.path[|pre + v|..])
    {
      assert s.path[|pre|..] == v + s.path[|pre + v|..];
    }
    SelectAgree(q, k, b, |pre|, k + 1, b', |pre + v|, Leaves(pre + v, t));
  }

  lemma SelectRejected(q: Query, k: nat, b: Substitution, pre: seq<Token>, v: seq<Token>, t: Trie)
    requires k < |q.expr|
    requires forall w: seq<Token> :: !Accepts(q, k, b, v + w)
    ensures Select(q, k, b, |pre|, Leaves(pre + v, t)) == []
  {
    LeavesExtend(pre + v, t);
    forall s | s in Leaves(pre + v, t)
      ensures !Accepts(q, k, b, s.path[|pre|..])
    {
      assert s.path[|pre|..] == v + s.path[|pre + v|..];
    }
    SelectNone(q, k, b, |pre|, Leaves(pre + v, t));
  }

  // ---------------------------------------------------------------- the search meets it

  /** need is the arity count of both the node and the query at token k. */
  lemma {:induction false} RunSelects(q: Query, t: Trie, k: nat, b: Substitution, pre: seq<Token>, need: nat)
    requires WellFormedQuery(q) && k <= |q.expr| && |b| == Specials(q.expr, k)
    requires forall i | 0 <= i < |b| :: IsCode(b[i], 1)
    requires WellFormed(t, need) && Shaped(q.expr, k, need)
    ensures Visited(Run(q, t, k, b)) == Select(q, k, b, |pre|, Leaves(pre, t))
    decreases |q.expr| - k, 0
  {
    if k == |q.expr| {
      assert Visited([Visit(t)][1..]) == [];
      assert pre[|pre|..] == [];
      assert Select(q, k, b, |pre|, [Spot(pre, t)][1..]) == [];
    } else {
      var run := Run(q, t, k, b);
      assert Visited(run) == Visited(run[1..]);
      assert NumberedAt(q.expr, k);
      if q.expr[k].CONST? {
        RunSelectsConst(q, t, k, b, pre, need);
      } else if q.expr[k].special < |b| {
        RunSelectsBound(q, t, k, b, pre, need);
      } else if q.expr[k].QVAR? {
        SpotsSound([], t, 1, need);
        LeavesInStages(pre, [], t, 1, need);
        assert pre + [] == pre;
        RunEachSelects(q, Spots([], t, 1), k + 1, b, pre, need - 1);
      } else {
        RunSelectsRange(q, t, k, b, pre, need, 0);
      }
    }
  }

  lemma {:induction false} RunSelectsConst(q: Query, t: Trie, k: nat, b: Substitution, pre: seq<Token>, need: nat)
    requires WellFormedQuery(q) && k < |q.expr| && |b| == Specials(q.expr, k)
    requires forall i | 0 <= i < |b| :: IsCode(b[i], 1)
    requires WellFormed(t, need) && Shaped(q.expr, k, need)
    requires q.expr[k].CONST?
    ensures Visited(Run(q, t, k, b)[1..]) == Select(q, k, b, |pre|, Leaves(pre, t))
    decreases |q.expr| - k, 0, 0
  {
    var tok := Token(q.expr[k].meaningId, q.expr[k].arity);
    SelectOneKid(q, t, k, b, pre, tok, 0);
    if Child(t, tok).Some? {
      var c := Child(t, tok).value;
      RunSelects(q, c, k + 1, b, pre + [tok], need - 1 + tok.arity);
      forall w: seq<Token>
        ensures Accepts(q, k, b, [tok] + w) <==> Accepts(q, k + 1, b, w)
      {
        assert ([tok] + w)[1..] == w;
      }
      SelectBelow(q, k, b, b, pre, [tok], c);
    }
  }
  
  /** A constant keeps the leaves below one child only. */
  lemma {:induction false} SelectOneKid(q: Query, t: Trie, k: nat, b: Substitution, pre: seq<Token>, tok: Token, i: nat)
    requires k < |q.expr| && q.expr[k].CONST? && tok == Token(q.expr[k].meaningId, q.expr[k].arity)
    requires t.Inner? && Sorted(t.kids) && i <= |t.kids|
    ensures Select(q, k, b, |pre|, LeavesFrom(pre, t, i)) ==
            if HasKey(t.kids, tok) && i <= KeyIndex(t.kids, tok)
            then Select(q, k, b, |pre|, Leaves(pre + [tok], t.kids[KeyIndex(t.kids, tok)].node))
            else []
    decreases |t.kids| - i
  {
    if i < |t.kids| {
      var e := t.kids[i];
      SelectOneKid(q, t, k, b, pre, tok, i + 1);
      SelectConcat(q, k, b, |pre|, Leaves(pre + [e.tok], e.node), LeavesFrom(pre, t, i + 1));
      if e.tok == tok {
        var j := KeyIndex(t.kids, tok);
        assert !(i < j) && !(j < i);
      } else {
        SelectRejected(q, k, b, pre, [e.tok], e.node);
      }
    }
  }

  lemma {:induction false} RunSelectsBound(q: Query, t: Trie, k: nat, b: Substitution, pre: seq<Token>, need: nat)
    requires WellFormedQuery(q) && k < |q.expr| && |b| == Specials(q.expr, k)
    requires forall i | 0 <= i < |b| :: IsCode(b[i], 1)
    requires WellFormed(t, need) && Shaped(q.expr, k, need)
    requires q.expr[k].QVAR? && q.expr[k].special < |b|
    ensures Visited(Run(q, t, k, b)[1..]) == Select(q, k, b, |pre|, Leaves(pre, t))
    decreases |q.expr| - k, 0, 0
  {
    hide Accepts, Leaves, LeavesUnder, Spots;
    var v := b[q.expr[k].special];
    LeavesInStages(pre, [], t, 1, need);
    assert pre + [] == pre;
    SpotsSound([], t, 1, need);
    SpotsIncreasing([], t, 1, need);
    SelectOneSpot(q, t, k, b, pre, need, Spots([], t, 1));
    if Descend(t, v).Some? {
      var c := Descend(t, v).value;
      SpotReached(t, v, need);
      RunSelects(q, c, k + 1, b, pre + v, need - 1);
      BoundAccepts(q, k, b);
      SelectBelow(q, k, b, b, pre, v, c);
    }
  }

  lemma SpotReached(t: Trie, v: seq<Token>, need: nat)
    requires WellFormed(t, need) && need > 0 && IsCode(v, 1) && Descend(t, v).Some?
    ensures Spot(v, Descend(t, v).value) in Spots([], t, 1)
    ensures WellFormed(Descend(t, v).value, need - 1)
  {
    SpotsComplete([], t, 1, need, v);
    assert [] + v == v;
    SpotsSound([], t, 1, need);
    assert SpotOf([], t, 1, need, Spot(v, Descend(t, v).value));
  }

  /** A bound variable keeps the leaves below one spot only: codes are prefix-free. */
  lemma {:induction false} SelectOneSpot(q: Query, t: Trie, k: nat, b: Substitution, pre: seq<Token>, need: nat,
                                         ss: seq<Spot>)
    requires k < |q.expr| && q.expr[k].QVAR? && q.expr[k].special < |b| && IsCode(b[q.expr[k].special], 1)
    requires need > 0 && Increasing(ss, 0)
    requires forall s | s in ss :: SpotOf([], t, 1, need, s)
    ensures var v := b[q.expr[k].special];
            Select(q, k, b, |pre|, LeavesUnder(pre, ss)) ==
            if Descend(t, v).Some? && Spot(v, Descend(t, v).value) in ss
            then Select(q, k, b, |pre|, Leaves(pre + v, Descend(t, v).value))
            else []
    decreases |ss|
  {
    var v := b[q.expr[k].special];
    if ss != [] {
      var s := ss[0];
      assert s in ss && SpotOf([], t, 1, need, s) && s.path[0..] == s.path;
      assert Increasing(ss[1..], 0) by {
        forall i, j | 0 <= i < j < |ss[1..]|
          ensures LexLess(ss[1..][i].path[0..], ss[1..][j].path[0..])
        {
          assert ss[1..][i] == ss[i + 1] && ss[1..][j] == ss[j + 1];
        }
      }
      SelectOneSpot(q, t, k, b, pre, need, ss[1..]);
      SelectConcat(q, k, b, |pre|, Leaves(pre + s.path, s.node), LeavesUnder(pre, ss[1..]));
      if s.path == v {
        if s in ss[1..] {
          var j :| 0 <= j < |ss[1..]| && ss[1..][j] == s;
          assert LexLess(ss[0].path[0..], ss[j + 1].path[0..]);
          LexLessIrreflexive(s.path);
          assert false;
        }
      } else {
        forall w: seq<Token>
          ensures !Accepts(q, k, b, s.path + w)
        {
          if v <= s.path + w {
            assert (s.path + w)[..|v|] == v && (s.path + w)[..|s.path|] == s.path;
            CodePrefixUnique(s.path + w, |v|, 1);
            CodePrefixUnique(s.path + w, |s.path|, 1);
            assert false;
          }
        }
        SelectRejected(q, k, b, pre, s.path, s.node);
      }
    }
  }

  lemma OneMoreSpecial(q: Query, k: nat, b: Substitution, u: seq<Token>)
    requires 0 < k <= |q.expr| && |b| == Specials(q.expr, k - 1) && q.expr[k - 1].QVAR? && q.expr[k - 1].special == |b|
    ensures |b + [u]| == Specials(q.expr, k)
  {
  }

  /** A fresh variable takes the code at the front. */
  lemma FreshAccepts(q: Query, k: nat, b: Substitution, u: seq<Token>)
    requires k < |q.expr| && q.expr[k].QVAR? && q.expr[k].special == |b| && IsCode(u, 1)
    ensures forall w: seq<Token> :: Accepts(q, k, b, u + w) <==> Accepts(q, k + 1, b + [u], w)
  {
    forall w: seq<Token>
      ensures Accepts(q, k, b, u + w) <==> Accepts(q, k + 1, b + [u], w)
    {
      assert (u + w)[..|u|] == u && (u + w)[|u|..] == w;
      CodePrefixUnique(u + w, |u|, 1);
    }
  }

  /** A fresh variable: one sub-search for each term below the node. */
  lemma {:induction false} RunEachSelects(q: Query, alts: seq<Spot>, k: nat, b: Substitution, pre: seq<Token>,
                                          need: nat)
    requires WellFormedQuery(q) && 0 < k <= |q.expr| && |b| == Specials(q.expr, k - 1)
    requires q.expr[k - 1].QVAR? && q.expr[k - 1].special == |b|
    requires forall i | 0 <= i < |b| :: IsCode(b[i], 1)
    requires Shaped(q.expr, k, need)
    requires forall s | s in alts :: IsCode(s.path, 1) && WellFormed(s.node, need)
    ensures Visited(RunEach(q, alts, k, b)) == Select(q, k - 1, b, |pre|, LeavesUnder(pre, alts))
    decreases |q.expr| - k, 1 + |alts|
  {
    hide Accepts, WellFormed, Leaves, Run, IsCode, Specials, Shaped, ValidSubst;
    if alts != [] {
      var s := alts[0];
      assert s in alts;
      var b' := b + [s.path];
      OneMoreSpecial(q, k, b, s.path);
      RunSelects(q, s.node, k, b', pre + s.path, need);
      RunEachSelects(q, alts[1..], k, b, pre, need);
      VisitedConcat(Run(q, s.node, k, b'), RunEach(q, alts[1..], k, b));
      SelectConcat(q, k - 1, b, |pre|, Leaves(pre + s.path, s.node), LeavesUnder(pre, alts[1..]));
      FreshAccepts(q, k - 1, b, s.path);
      SelectBelow(q, k - 1, b, b', pre, s.path, s.node);
    }
  }

  /** A range: one sub-search for each child that is a number within the bounds. */
  lemma {:induction false} RunSelectsRange(q: Query, t: Trie, k: nat, b: Substitution, pre: seq<Token>, need: nat,
                                           i: nat)
    requires WellFormedQuery(q) && k < |q.expr| && |b| == Specials(q.expr, k)
    requires forall j | 0 <= j < |b| :: IsCode(b[j], 1)
    requires WellFormed(t, need) && Shaped(q.expr, k, need)
    requires q.expr[k].RANGE? && t.Inner? && i <= |t.kids|
    ensures var alts := InRange(q.numbers, q.bounds[q.expr[k].meaningId], t, i);
            Visited(RunEach(q, alts, k + 1, b)) == Select(q, k, b, |pre|, LeavesFrom(pre, t, i))
    decreases |q.expr| - k, 0, |t.kids| - i
  {
    hide Accepts, Leaves;
    if i < |t.kids| {
      var e, limits := t.kids[i], q.bounds[q.expr[k].meaningId];
      var rest := InRange(q.numbers, limits, t, i + 1);
      assert NumberedAt(q.expr, k);
      RunSelectsRange(q, t, k, b, pre, need, i + 1);
      SelectConcat(q, k, b, |pre|, Leaves(pre + [e.tok], e.node), LeavesFrom(pre, t, i + 1));
      if ValidSubst(q.numbers, limits, e.tok) {
        var b' := b + [[e.tok]];
        assert [e.tok][1..] == [];
        RunSelects(q, e.node, k + 1, b', pre + [e.tok], need - 1);
        assert ([Spot([e.tok], e.node)] + rest)[1..] == rest;
        VisitedConcat(Run(q, e.node, k + 1, b'), RunEach(q, rest, k + 1, b));
        RangeAccepts(q, k, b, e.tok);
        SelectBelow(q, k, b, b', pre, [e.tok], e.node);
      } else {
        RangeRejects(q, k, b, e.tok);
        SelectRejected(q, k, b, pre, [e.tok], e.node);
      }
    }
  }

  lemma RangeRejects(q: Query, k: nat, b: Substitution, tok: Token)
    requires k < |q.expr| && q.expr[k].RANGE? && q.expr[k].meaningId in q.bounds
    requires !ValidSubst(q.numbers, q.bounds[q.expr[k].meaningId], tok)
    ensures forall w: seq<Token> :: !Accepts(q, k, b, [tok] + w)
  {
  }

  lemma BoundAccepts(q: Query, k: nat, b: Substitution)
    requires k < |q.expr| && q.expr[k].QVAR? && q.expr[k].special < |b|
    ensures var v := b[q.expr[k].special];
            forall w: seq<Token> :: Accepts(q, k, b, v + w) <==> Accepts(q, k + 1, b, w)
  {
    var v := b[q.expr[k].special];
    forall w: seq<Token>
      ensures Accepts(q, k, b, v + w) <==> Accepts(q, k + 1, b, w)
    {
      assert (v + w)[|v|..] == w;
    }
  }

  lemma RangeAccepts(q: Query, k: nat, b: Substitution, tok: Token)
    requires k < |q.expr| && q.expr[k].RANGE? && q.expr[k].meaningId in q.bounds
    requires ValidSubst(q.numbers, q.bounds[q.expr[k].meaningId], tok)
    ensures forall w: seq<Token> :: Accepts(q, k, b, [tok] + w) <==> Accepts(q, k + 1, b + [[tok]], w)
  {
    forall w: seq<Token>
      ensures Accepts(q, k, b, [tok] + w) <==> Accepts(q, k + 1, b + [[tok]], w)
    {
      assert ([tok] + w)[..1] == [tok] && ([tok] + w)[1..] == w;
    }
  }

  lemma {:induction false} SelectIsInstances(q: Query, ss: seq<Spot>)
    requires WellFormedQuery(q)
    ensures Select(q, 0, [], 0, ss) == Instances(q, ss)
    decreases |ss|
  {
    if ss != [] {
      SelectIsInstances(q, ss[1..]);
      AcceptsIffInstance(q, ss[0].path);
      assert ss[0].path[0..] == ss[0].path;
    }
  }

  /** The whole search visits exactly the leaves that are instances, each once, in trie order. */
  lemma RunVisitsMatches(q: Query, root: Trie)
    requires WellFormedQuery(q) && WellFormed(root, 1)
    ensures Visited(Run(q, root, 0, [])) == Matches(q, root)
  {
    RunSelects(q, root, 0, [], [], 1);
    SelectIsInstances(q, Leaves([], root));
  }
}
