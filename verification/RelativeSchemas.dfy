/** Schemata of formulae with different cut-offs: equal kept tokens are not enough. */
module RelativeSchemas {
  import opened Tokens
  import opened Terms
  import opened Schemas
  import opened Wrappers

  /** The schema of t at cut-off d stands for t': some terms for its variables give the tree of t'. */
  ghost predicate StandsFor(dec: Decoder, t: Term, d: nat, t': Term)
  {
    exists subs: seq<Cmml> :: Instantiate(Schema(dec, t, 1, d, 1), subs, 1) == Tree(dec, t')
  }

  /** Different meanings show as different elements. */
  ghost predicate Readable(dec: Decoder)
  {
    forall a: Token, b: Token | NodeOf(dec, a, []) == NodeOf(dec, b, []) :: a.id == b.id
  }

  lemma SameElement(dec: Decoder, a: Token, cs: seq<Cmml>, b: Token, cs': seq<Cmml>)
    requires Readable(dec) && NodeOf(dec, a, cs).tag == NodeOf(dec, b, cs').tag
             && NodeOf(dec, a, cs).text == NodeOf(dec, b, cs').text
    ensures a.id == b.id
  {
    assert NodeOf(dec, a, []) == NodeOf(dec, b, []);
  }

  // ---------------------------------------------------------------- a match determines the truncation

  lemma {:induction false} InstantiateSize(cs: seq<Cmml>, subs: seq<Cmml>, n: nat)
    ensures |InstantiateAll(cs, subs, n)| == |cs|
    decreases |cs|
  {
    if cs != [] {
      InstantiateSize(cs[1..], subs, n);
    }
  }

  lemma {:induction false} MatchGivesCut(dec: Decoder, t: Term, t': Term, h: nat, d: nat, n: nat, subs: seq<Cmml>,
                                         n0: nat)
    requires Readable(dec) && Ranked(t) && Ranked(t')
    requires Instantiate(Schema(dec, t, h, d, n), subs, n0) == Tree(dec, t')
    ensures CutOf(dec, t, h, d) == CutOf(dec, t', h, d)
    decreases t, 0
  {
    hide Readable, NodeOf;
    var first := IsApply(dec, t.tok);
    var kids := SchemaKids(dec, t.args, h, d, first, n);
    InstantiateSize(kids, subs, n0);
    RootsMatch(dec, t, t', kids, subs, n0);
    KidsMatchGiveCut(dec, t.args, t'.args, h, d, first, n, subs, n0);
  }

  lemma RootsMatch(dec: Decoder, t: Term, t': Term, kids: seq<Cmml>, subs: seq<Cmml>, n0: nat)
    requires Readable(dec) && Ranked(t) && Ranked(t') && |kids| == |t.args| == |InstantiateAll(kids, subs, n0)|
    requires Instantiate(NodeOf(dec, t.tok, kids), subs, n0) == Tree(dec, t')
    ensures t.tok == t'.tok && InstantiateAll(kids, subs, n0) == Trees(dec, t'.args)
  {
    hide Readable, InstantiateAll, DecodeMeaning, CleanTag, NoSpaces;
    SameElement(dec, t.tok, kids, t'.tok, Trees(dec, t'.args));
  }

  lemma {:induction false} KidsMatchGiveCut(dec: Decoder, ts: seq<Term>, ts': seq<Term>, h: nat, d: nat, first: bool,
                                            n: nat, subs: seq<Cmml>, n0: nat)
    requires Readable(dec) && |ts| == |ts'| && forall i | 0 <= i < |ts| :: Ranked(ts[i]) && Ranked(ts'[i])
    requires InstantiateAll(SchemaKids(dec, ts, h, d, first, n), subs, n0) == Trees(dec, ts')
    ensures CutKids(dec, ts, h, d, first) == CutKids(dec, ts', h, d, first)
    decreases ts, 1
  {
    hide Readable, Schema, Tree, Instantiate, Ranked, CutOf, Skipped;
    if ts != [] {
      var kids := SchemaKids(dec, ts, h, d, first, n);
      var m := if Kept(h, d, first) then n + |Skipped(dec, ts[0], h + 1, d)| else n + 1;
      assert kids[1..] == SchemaKids(dec, ts[1..], h, d, false, m);
      HeadsAndTails(Instantiate(kids[0], subs, n0), InstantiateAll(kids[1..], subs, n0), Tree(dec, ts'[0]),
                    Trees(dec, ts'[1..]));
      KidsMatchGiveCut(dec, ts[1..], ts'[1..], h, d, false, m, subs, n0);
      if Kept(h, d, first) {
        MatchGivesCut(dec, ts[0], ts'[0], h + 1, d, n, subs, n0);
      }
    }
  }

  lemma HeadsAndTails<T>(x: T, xs: seq<T>, y: T, ys: seq<T>)
    ensures [x] + xs == [y] + ys <==> x == y && xs == ys
  {
    if [x] + xs == [y] + ys {
      assert ([x] + xs)[0] == ([y] + ys)[0] && ([x] + xs)[1..] == xs && ([y] + ys)[1..] == ys;
    }
  }

  // ---------------------------------------------------------------- deeper cut-offs keep more

  lemma {:induction false} DeeperKeepsMore(dec: Decoder, t: Term, h: nat, d: nat, d': nat)
    requires d <= d'
    ensures |Reduced(dec, t, h, d)| <= |Reduced(dec, t, h, d')|
    ensures |Reduced(dec, t, h, d)| == |Reduced(dec, t, h, d')| ==> CutOf(dec, t, h, d) == CutOf(dec, t, h, d')
    decreases t, 0
  {
    DeeperKeepsMoreKids(dec, t.args, h, d, d', IsApply(dec, t.tok));
  }

  lemma {:induction false} DeeperKeepsMoreKids(dec: Decoder, ts: seq<Term>, h: nat, d: nat, d': nat, first: bool)
    requires d <= d'
    ensures |ReducedKids(dec, ts, h, d, first)| <= |ReducedKids(dec, ts, h, d', first)|
    ensures |ReducedKids(dec, ts, h, d, first)| == |ReducedKids(dec, ts, h, d', first)| ==>
              CutKids(dec, ts, h, d, first) == CutKids(dec, ts, h, d', first)
    decreases ts, 1
  {
    hide CutOf;
    if ts != [] {
      DeeperKeepsMoreKids(dec, ts[1..], h, d, d', false);
      if Kept(h, d', first) {
        KeepsSomething(dec, ts[0], h + 1, d');
        DeeperKeepsMore(dec, ts[0], h + 1, d, d');
      }
    }
  }

  lemma KeepsSomething(dec: Decoder, t: Term, h: nat, d: nat)
    ensures |Reduced(dec, t, h, d)| > 0
  {
  }

  // ---------------------------------------------------------------- when a schema stands for its class

  /** Of two formulae with the same kept tokens, each with its own cut-off, the schema of one stands
      for the other exactly when they agree down to their cut-offs. */
  lemma StandsForIffSameCut(dec: Decoder, t: Term, d: nat, t': Term, d': nat)
    requires Readable(dec) && Ranked(t) && Ranked(t') && Reduced(dec, t, 1, d) == Reduced(dec, t', 1, d')
    ensures StandsFor(dec, t, d, t') <==> CutOf(dec, t, 1, d) == CutOf(dec, t', 1, d')
  {
    hide Readable, Ranked, Reduced, CutOf, Schema, Tree, Instantiate;
    if StandsFor(dec, t, d, t') {
      var subs: seq<Cmml> :| Instantiate(Schema(dec, t, 1, d, 1), subs, 1) == Tree(dec, t');
      MatchGivesCut(dec, t, t', 1, d, 1, subs, 1);
      ReducedDeterminesCut(dec, t, t', 1, d, [], []);
      assert Reduced(dec, t, 1, d) + [] == Reduced(dec, t, 1, d)
             && Reduced(dec, t', 1, d) + [] == Reduced(dec, t', 1, d);
      if d <= d' {
        DeeperKeepsMore(dec, t', 1, d, d');
      } else {
        DeeperKeepsMore(dec, t', 1, d', d);
      }
    }
    if CutOf(dec, t, 1, d) == CutOf(dec, t', 1, d') {
      SameCutStandsFor(dec, t, d, t', d');
    }
  }

  lemma SameCutStandsFor(dec: Decoder, t: Term, d: nat, t': Term, d': nat)
    requires CutOf(dec, t, 1, d) == CutOf(dec, t', 1, d')
    ensures StandsFor(dec, t, d, t')
  {
    hide CutOf, Schema, Tree, Instantiate, Skipped;
    CutDeterminesSchema(dec, t, t', 1, d, d', 1);
    TreesAre(dec, Skipped(dec, t', 1, d'));
    SchemaGeneralises(dec, t', 1, d', 1, Trees(dec, Skipped(dec, t', 1, d')), 1);
  }

  // ---------------------------------------------------------------- a class without a common schema

  function Leaf(tok: Token): Term {
    Term(tok, [])
  }

  function Unary(tok: Token, arg: Term): Term {
    Term(tok, [arg])
  }

  /** f(g(h(a)), x(y)) */
  function Shallow(f: Token, g: Token, h: Token, x: Token, y: Token, a: Token): Term {
    Term(f, [Unary(g, Unary(h, Leaf(a))), Unary(x, Leaf(y))])
  }

  /** f(g(h(x(a))), y) */
  function Deep(f: Token, g: Token, h: Token, x: Token, y: Token, a: Token): Term {
    Term(f, [Unary(g, Unary(h, Unary(x, Leaf(a)))), Leaf(y)])
  }

  ghost predicate NoApply(dec: Decoder, toks: seq<Token>)
  {
    forall i | 0 <= i < |toks| :: !IsApply(dec, toks[i])
  }

  /** The depth of a tree, 0 for a leaf. */
  function Depth(t: Term): nat
    decreases t, 0
  {
    DepthBelow(t.args)
  }

  function DepthBelow(ts: seq<Term>): nat
    decreases ts, 1
  {
    if ts == [] then 0
    else
      var d, rest := Depth(ts[0]) + 1, DepthBelow(ts[1..]);
      if d > rest then d else rest
  }

  /** The relative cut-off, apart from the rounding of floating point numbers. */
  function Share(percent: nat, depth: nat): nat {
    percent * depth / 100
  }

  lemma DepthOne(tok: Token, arg: Term)
    ensures Depth(Unary(tok, arg)) == Depth(arg) + 1
  {
    assert [arg][1..] == [];
    assert DepthBelow([]) == 0;
  }

  lemma DepthTwo(tok: Token, l: Term, r: Term)
    ensures Depth(Term(tok, [l, r])) == 1 + if Depth(l) > Depth(r) then Depth(l) else Depth(r)
  {
    assert [l, r][1..] == [r] && [r][1..] == [];
    assert DepthBelow([]) == 0;
    assert DepthBelow([r]) == Depth(r) + 1;
  }

  /** All of the depth, 100 percent, is 3 for one tree and 4 for the other. */
  lemma WholeDepths(f: Token, g: Token, h: Token, x: Token, y: Token, a: Token)
    ensures Share(100, Depth(Shallow(f, g, h, x, y, a))) == 3 && Share(100, Depth(Deep(f, g, h, x, y, a))) == 4
  {
    hide Depth;
    assert Depth(Leaf(a)) == 0 && Depth(Leaf(y)) == 0 by { DepthNone(a); DepthNone(y); }
    DepthOne(h, Leaf(a));
    DepthOne(g, Unary(h, Leaf(a)));
    DepthOne(x, Leaf(y));
    DepthTwo(f, Unary(g, Unary(h, Leaf(a))), Unary(x, Leaf(y)));
    DepthOne(x, Leaf(a));
    DepthOne(h, Unary(x, Leaf(a)));
    DepthOne(g, Unary(h, Unary(x, Leaf(a))));
    DepthTwo(f, Unary(g, Unary(h, Unary(x, Leaf(a)))), Leaf(y));
  }

  lemma DepthNone(tok: Token)
    ensures Depth(Leaf(tok)) == 0
  {
  }

  lemma ReducedLeaf(dec: Decoder, tok: Token, h: nat, d: nat)
    ensures Reduced(dec, Leaf(tok), h, d) == [tok]
  {
  }

  lemma ReducedUnary(dec: Decoder, tok: Token, arg: Term, h: nat, d: nat)
    requires !IsApply(dec, tok)
    ensures Reduced(dec, Unary(tok, arg), h, d) == [tok] + if h < d then Reduced(dec, arg, h + 1, d) else []
  {
    assert Unary(tok, arg).args[1..] == [];
    assert ReducedKids(dec, [], h, d, false) == [];
  }

  lemma ReducedBinary(dec: Decoder, tok: Token, l: Term, r: Term, h: nat, d: nat)
    requires !IsApply(dec, tok) && h < d
    ensures Reduced(dec, Term(tok, [l, r]), h, d) == [tok] + (Reduced(dec, l, h + 1, d) + Reduced(dec, r, h + 1, d))
  {
    assert [l, r][1..] == [r] && [r][1..] == [];
    assert ReducedKids(dec, [], h, d, false) == [];
    assert ReducedKids(dec, [r], h, d, false) == Reduced(dec, r, h + 1, d) + [];
  }

  /** Both keep f, g, h, x and y: one at cut-off 3, the other at cut-off 4, as a relative cut-off of
      the whole depth has it. The schema of neither stands for the other. */
  lemma SameKeptTokensNoSchema(dec: Decoder, f: Token, g: Token, h: Token, x: Token, y: Token, a: Token)
    requires NoApply(dec, [f, g, h, x, y])
    requires f.arity == 2 && g.arity == 1 && h.arity == 1 && x.arity == 1 && y.arity == 0 && a.arity == 0
    ensures var t, t' := Shallow(f, g, h, x, y, a), Deep(f, g, h, x, y, a);
            && Ranked(t) && Ranked(t') && Reduced(dec, t, 1, 3) == Reduced(dec, t', 1, 4) == [f, g, h, x, y]
            && Share(100, Depth(t)) == 3 && Share(100, Depth(t')) == 4
            && !StandsFor(dec, t, 3, t') && !StandsFor(dec, t', 4, t)
  {
    hide Reduced, StandsFor, IsApply, Depth;
    var toks := [f, g, h, x, y];
    assert toks[0] == f && toks[1] == g && toks[2] == h && toks[3] == x && toks[4] == y;
    BothRanked(f, g, h, x, y, a);
    WholeDepths(f, g, h, x, y, a);
    ReducedShallow(dec, f, g, h, x, y, a);
    ReducedDeep(dec, f, g, h, x, y, a);
    SecondChildDiffers(dec, f, Unary(g, Unary(h, Leaf(a))), Unary(x, Leaf(y)), Unary(g, Unary(h, Unary(x, Leaf(a)))),
                       Leaf(y), 3);
    SecondChildDiffers(dec, f, Unary(g, Unary(h, Unary(x, Leaf(a)))), Leaf(y), Unary(g, Unary(h, Leaf(a))),
                       Unary(x, Leaf(y)), 4);
  }

  lemma BothRanked(f: Token, g: Token, h: Token, x: Token, y: Token, a: Token)
    requires f.arity == 2 && g.arity == 1 && h.arity == 1 && x.arity == 1 && y.arity == 0 && a.arity == 0
    ensures Ranked(Shallow(f, g, h, x, y, a)) && Ranked(Deep(f, g, h, x, y, a))
  {
    assert Ranked(Leaf(a)) && Ranked(Leaf(y));
    assert Ranked(Unary(h, Leaf(a))) && Ranked(Unary(x, Leaf(y))) && Ranked(Unary(x, Leaf(a)));
    assert Ranked(Unary(h, Unary(x, Leaf(a))));
  }

  lemma ReducedShallow(dec: Decoder, f: Token, g: Token, h: Token, x: Token, y: Token, a: Token)
    requires !IsApply(dec, f) && !IsApply(dec, g) && !IsApply(dec, h) && !IsApply(dec, x)
    ensures Reduced(dec, Shallow(f, g, h, x, y, a), 1, 3) == [f, g, h, x, y]
  {
    hide Reduced, IsApply;
    var l, r := Unary(g, Unary(h, Leaf(a))), Unary(x, Leaf(y));
    ReducedUnary(dec, h, Leaf(a), 3, 3);
    ReducedUnary(dec, g, Unary(h, Leaf(a)), 2, 3);
    ReducedLeaf(dec, y, 3, 3);
    ReducedUnary(dec, x, Leaf(y), 2, 3);
    ReducedBinary(dec, f, l, r, 1, 3);
  }

  lemma ReducedDeep(dec: Decoder, f: Token, g: Token, h: Token, x: Token, y: Token, a: Token)
    requires !IsApply(dec, f) && !IsApply(dec, g) && !IsApply(dec, h) && !IsApply(dec, x)
    ensures Reduced(dec, Deep(f, g, h, x, y, a), 1, 4) == [f, g, h, x, y]
  {
    hide Reduced, IsApply;
    var l, r := Unary(g, Unary(h, Unary(x, Leaf(a)))), Leaf(y);
    ReducedUnary(dec, x, Leaf(a), 4, 4);
    ReducedUnary(dec, h, Unary(x, Leaf(a)), 3, 4);
    ReducedUnary(dec, g, Unary(h, Unary(x, Leaf(a))), 2, 4);
    ReducedLeaf(dec, y, 2, 4);
    ReducedBinary(dec, f, l, r, 1, 4);
  }

  /** The second child is kept with all its children or none, so their numbers must agree. */
  lemma SecondChildDiffers(dec: Decoder, f: Token, l: Term, r: Term, l': Term, r': Term, d: nat)
    requires !IsApply(dec, f) && d > 2 && |r.args| != |r'.args|
    ensures !StandsFor(dec, Term(f, [l, r]), d, Term(f, [l', r']))
  {
    hide IsApply, NodeOf, Skipped;
    var t, t' := Term(f, [l, r]), Term(f, [l', r']);
    forall subs: seq<Cmml>
      ensures Instantiate(Schema(dec, t, 1, d, 1), subs, 1) != Tree(dec, t')
    {
      var n := 1 + |Skipped(dec, l, 2, d)|;
      assert [l, r][1..] == [r] && [r][1..] == [] && [l', r'][1..] == [r'] && [r'][1..] == [];
      var kids := SchemaKids(dec, [l, r], 1, d, false, 1);
      assert SchemaKids(dec, [r], 1, d, false, n) == [Schema(dec, r, 2, d, n)] + [];
      assert kids == [Schema(dec, l, 2, d, 1)] + [Schema(dec, r, 2, d, n)];
      var second := Schema(dec, r, 2, d, n);
      assert kids[1..] == [second] && [second][1..] == [];
      var cs := InstantiateAll(kids, subs, 1);
      assert cs == [Instantiate(kids[0], subs, 1)] + InstantiateAll([second], subs, 1);
      assert InstantiateAll([second], subs, 1) == [Instantiate(second, subs, 1)] + [];
      assert cs[1] == Instantiate(second, subs, 1);
      InstantiateSize(second.children, subs, 1);
      assert |cs[1].children| == |r.args|;
      assert Trees(dec, [r']) == [Tree(dec, r')] + [];
      assert Trees(dec, [l', r'])[1] == Tree(dec, r');
      assert |Trees(dec, [l', r'])[1].children| == |r'.args|;
      assert cs != Trees(dec, [l', r']);
    }
  }
}
