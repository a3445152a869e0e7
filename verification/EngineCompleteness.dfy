/** When the experimental engine answers completely: for queries without variables over every
    index, for every query over an index of one formula, and in no other case. */
module EngineCompleteness {
  import opened Tokens
  import opened Terms
  import opened Tries
  import opened EngineSpec
  import opened Wrappers

  // ---------------------------------------------------------------- what a run reports

  /** What the engine has room for. */
  ghost predicate IndexInBounds(tree: Trie)
  {
    WellFormed(tree, 1) && Ground(tree) && Height(tree) <= MAX_VAR_INSTANTIATION_SIZE
  }

  ghost predicate QueryInBounds(query: seq<Token>)
  {
    && IsQueryFrom(query, 1) && |query| <= 256
    && forall i | 0 <= i < |query| && query[i].IsVar() :: query[i].id < VAR_ID_MAX
  }

  ghost predicate InBounds(tree: Trie, query: seq<Token>)
  {
    IndexInBounds(tree) && QueryInBounds(query)
  }

  ghost function FirstGuess(tree: Trie, query: seq<Token>): Option<seq<Token>> {
    Guess(tree, Reversed(query), map[])
  }

  ghost function FirstCount(tree: Trie, query: seq<Token>): nat {
    Count(tree, Reversed(query), map[])
  }

  /** What a run hands on that is not stopped: one path, some number of times, or nothing. */
  ghost predicate Reports(tree: Trie, query: seq<Token>, paths: seq<seq<Token>>)
  {
    && (forall i | 0 <= i < |paths| :: FirstGuess(tree, query) == Some(paths[i]))
    && (paths != [] <==> FirstGuess(tree, query).Some?)
  }

  /** Every indexed instance of the query is among the reported paths. */
  ghost predicate Answered(tree: Trie, query: seq<Token>, paths: seq<seq<Token>>)
  {
    forall w | IsLeafPath(tree, w) && IsInstanceOf(query, w) :: w in paths
  }

  // ---------------------------------------------------------------- which instances are reported

  /** The path w takes the first entry of every node. */
  ghost predicate Leftmost(t: Trie, w: seq<Token>)
    decreases |w|
  {
    w == [] || (t.Inner? && t.kids != [] && t.kids[0].tok == w[0] && Leftmost(t.kids[0].node, w[1..]))
  }

  /** A variable occurs here that has not occurred before. */
  ghost predicate New(query: seq<Token>, i: nat, seen: set<nat>)
    requires i < |query|
  {
    query[i].IsVar() && query[i].id !in seen && forall j | 0 <= j < i && query[j].IsVar() :: query[j].id != query[i].id
  }

  /** Wherever a variable first occurs, its term takes first entries only. */
  ghost predicate Leading(t: Trie, query: seq<Token>, seen: set<nat>, sub: Substitution)
  {
    forall i | 0 <= i < |query| && New(query, i, seen) ::
      LeftmostAt(t, Instance(query[..i], sub), Replaced(query[i], sub))
  }

  ghost predicate LeftmostAt(t: Trie, before: seq<Token>, u: seq<Token>)
  {
    Descend(t, before).Some? && Leftmost(Descend(t, before).value, u)
  }

  ghost predicate Covers(sub: Substitution, query: seq<Token>)
  {
    forall i | 0 <= i < |query| && query[i].IsVar() :: query[i].id in sub
  }

  /** sub makes an indexed path of the query. */
  ghost predicate Finds(t: Trie, query: seq<Token>, sub: Substitution)
  {
    AreCodes(sub) && Covers(sub, query) && IsLeafPath(t, Instance(query, sub))
  }

  ghost predicate BoundIn(bound: Substitution, sub: Substitution)
  {
    forall v | v in bound :: v in sub && sub[v] == bound[v] && Constants(bound[v])
  }

  lemma {:induction false} LeftmostUnique(t: Trie, u: seq<Token>, w: seq<Token>, a: nat)
    requires Leftmost(t, u) && Leftmost(t, w) && IsCode(u, a) && IsCode(w, a)
    ensures u == w
    decreases |u|
  {
    if u != [] {
      LeftmostUnique(t.kids[0].node, u[1..], w[1..], a - 1 + u[0].arity);
    }
  }

  lemma {:induction false} FirstTermsAre(t: Trie, a: nat, n: nat)
    requires WellFormed(t, n) && Ground(t) && a <= n
    ensures var (u, x) := FirstTerms(t, a);
            IsCode(u, a) && Constants(u) && Leftmost(t, u) && Descend(t, u) == Some(x) && WellFormed(x, n - a)
                && Ground(x)
    decreases t
  {
    hide WellFormed, Ground, Child;
    if a > 0 {
      FirstEntry(t, n);
      var e := t.kids[0];
      FirstTermsAre(e.node, a - 1 + e.tok.arity, n - 1 + e.tok.arity);
      var (u, x) := FirstTerms(e.node, a - 1 + e.tok.arity);
      assert ([e.tok] + u)[1..] == u;
    }
  }

  lemma FirstEntry(t: Trie, n: nat)
    requires WellFormed(t, n) && Ground(t) && n > 0
    ensures t.Inner? && t.kids != [] && Child(t, t.kids[0].tok) == Some(t.kids[0].node) && !t.kids[0].tok.IsVar()
    ensures n - 1 + t.kids[0].tok.arity >= 0 && WellFormed(t.kids[0].node, n - 1 + t.kids[0].tok.arity)
            && Ground(t.kids[0].node)
  {
    ChildAt(t, 0);
  }

  lemma SomeEntry(t: Trie, n: nat, tok: Token)
    requires WellFormed(t, n) && Ground(t) && Child(t, tok).Some?
    ensures n > 0 && WellFormed(Child(t, tok).value, n - 1 + tok.arity) && Ground(Child(t, tok).value) && !tok.IsVar()
  {
    var k := KeyIndex(t.kids, tok);
    assert t.kids[k].tok == tok;
  }

  lemma {:induction false} DescendKeeps(t: Trie, n: nat, w: seq<Token>, a: nat)
    requires WellFormed(t, n) && Ground(t) && IsCode(w, a) && a <= n && Descend(t, w).Some?
    ensures WellFormed(Descend(t, w).value, n - a) && Ground(Descend(t, w).value) && Constants(w)
    decreases |w|
  {
    hide WellFormed, Ground, Child;
    if w != [] {
      SomeEntry(t, n, w[0]);
      DescendKeeps(Child(t, w[0]).value, n - 1 + w[0].arity, w[1..], a - 1 + w[0].arity);
      assert w == [w[0]] + w[1..];
    }
  }

  /** Constants on the stack are followed into the trie. */
  lemma {:induction false} GuessConstants(t: Trie, u: seq<Token>, query: seq<Token>, bound: Substitution)
    requires Constants(u)
    ensures Guess(t, Reversed(u + query), bound)
         == match Descend(t, u) case None => None case Some(c) => Behind(u, Guess(c, Reversed(query), bound))
    decreases |u|
  {
    if u == [] {
      assert u + query == query;
      var r := Guess(t, Reversed(query), bound);
      assert r.Some? ==> [] + r.value == r.value;
    } else {
      var stack := Reversed(u + query);
      assert (u + query)[1..] == u[1..] + query;
      assert Last(stack) == u[0] && Init(stack) == Reversed(u[1..] + query);
      GuessConstant(t, stack, bound);
      if Child(t, u[0]).Some? {
        var c := Child(t, u[0]).value;
        GuessConstants(c, u[1..], query, bound);
        BehindBoth(u, Descend(c, u[1..]), query, bound);
      }
    }
  }

  lemma BehindBoth(u: seq<Token>, c: Option<Trie>, query: seq<Token>, bound: Substitution)
    requires u != []
    ensures c.Some? ==>
              var r := Guess(c.value, Reversed(query), bound);
              Behind([u[0]], Behind(u[1..], r)) == Behind(u, r)
  {
    if c.Some? {
      var r := Guess(c.value, Reversed(query), bound);
      assert r.Some? ==> [u[0]] + (u[1..] + r.value) == u + r.value;
    }
  }

  /** What the choice for the first token of the query leaves to be asked. */
  lemma LeadingStep(t: Trie, query: seq<Token>, seen: set<nat>, sub: Substitution, c: Trie)
    requires query != [] && Descend(t, Replaced(query[0], sub)) == Some(c)
    ensures Leading(t, query, seen, sub)
       <==> && (query[0].IsVar() && query[0].id !in seen ==> Leftmost(t, Replaced(query[0], sub)))
            && Leading(c, query[1..], if query[0].IsVar() then seen + {query[0].id} else seen, sub)
  {
    hide Leftmost;
    var u, rest := Replaced(query[0], sub), query[1..];
    var seen' := if query[0].IsVar() then seen + {query[0].id as nat} else seen;
    assert Instance(query[..0], sub) == [];
    assert query[0].IsVar() && query[0].id !in seen <==> New(query, 0, seen);
    assert LeftmostAt(t, [], u) <==> Leftmost(t, u);
    forall i | 0 <= i < |rest|
      ensures New(rest, i, seen') <==> New(query, i + 1, seen)
      ensures LeftmostAt(c, Instance(rest[..i], sub), Replaced(rest[i], sub))
         <==> LeftmostAt(t, Instance(query[..i + 1], sub), Replaced(query[i + 1], sub))
    {
      NewLater(query, i, seen);
      assert query[..i + 1][0] == query[0] && query[..i + 1][1..] == rest[..i];
      DescendConcat(t, u, Instance(rest[..i], sub));
    }
    if Leading(t, query, seen, sub) {
      forall i | 0 <= i < |rest| && New(rest, i, seen')
        ensures LeftmostAt(c, Instance(rest[..i], sub), Replaced(rest[i], sub))
      {
        assert New(query, i + 1, seen);
      }
    }
    if (New(query, 0, seen) ==> Leftmost(t, u)) && Leading(c, rest, seen', sub) {
      forall i | 0 <= i < |query| && New(query, i, seen)
        ensures LeftmostAt(t, Instance(query[..i], sub), Replaced(query[i], sub))
      {
        if i > 0 {
          assert New(rest, i - 1, seen');
        }
      }
    }
  }

  lemma NewLater(query: seq<Token>, i: nat, seen: set<nat>)
    requires i + 1 < |query|
    ensures New(query[1..], i, if query[0].IsVar() then seen + {query[0].id} else seen) <==> New(query, i + 1, seen)
  {
    var rest := query[1..];
    assert forall j | 0 <= j < i :: rest[j] == query[j + 1];
    if New(rest, i, if query[0].IsVar() then seen + {query[0].id as nat} else seen) {
      assert forall j | 0 < j < i + 1 && query[j].IsVar() :: rest[j - 1] == query[j];
    }
  }

  /** Of the indexed instances, exactly those are guessed whose variables take first entries. */
  lemma {:induction false} GuessedIffLeading(t: Trie, n: nat, query: seq<Token>, bound: Substitution, sub: Substitution)
    requires WellFormed(t, n) && Ground(t) && IsQueryFrom(query, n) && Finds(t, query, sub) && BoundIn(bound, sub)
    ensures Guess(t, Reversed(query), bound) == Some(Instance(query, sub)) <==> Leading(t, query, bound.Keys, sub)
    decreases |query|
  {
    hide Leading, Leftmost, WellFormed, Ground, Guess, GuessFrom, IsCode, Descend;
    if query == [] {
      GuessNothing(t, bound);
      LeadingNothing(t, bound.Keys, sub);
    } else {
      var tok, u, rest := query[0], Replaced(query[0], sub), query[1..];
      var c := FindsBelow(t, n, query, sub);
      LeadingStep(t, query, bound.Keys, sub, c);
      var m := n - 1 + if tok.IsVar() then 0 else tok.arity;
      if !tok.IsVar() || tok.id in bound {
        GuessedIffLeading(c, m, rest, bound, sub);
        GuessFixed(t, query, bound, sub, c);
        assert tok.IsVar() ==> bound.Keys + {tok.id} == bound.Keys;
      } else {
        GuessFree(t, n, query, bound, sub, c);
        if Leftmost(t, u) {
          var bound' := bound[tok.id as nat := u];
          GuessedIffLeading(c, m, rest, bound', sub);
          assert bound'.Keys == bound.Keys + {tok.id};
        }
      }
    }
  }

  lemma GuessNothing(t: Trie, bound: Substitution)
    ensures Guess(t, Reversed([]), bound) == Some([])
  {
    var query: seq<Token> := [];
    assert Reversed(query) == query;
  }

  lemma LeadingNothing(t: Trie, seen: set<nat>, sub: Substitution)
    ensures Leading(t, [], seen, sub)
  {
  }

  lemma FindsBelow(t: Trie, n: nat, query: seq<Token>, sub: Substitution) returns (c: Trie)
    requires WellFormed(t, n) && Ground(t) && query != [] && IsQueryFrom(query, n) && Finds(t, query, sub)
    ensures Descend(t, Replaced(query[0], sub)) == Some(c) && Constants(Replaced(query[0], sub))
    ensures WellFormed(c, n - 1 + if query[0].IsVar() then 0 else query[0].arity) && Ground(c)
    ensures Finds(c, query[1..], sub)
  {
    hide WellFormed, Ground, Descend, IsQueryFrom;
    var tok, u := query[0], Replaced(query[0], sub);
    DescendConcat(t, u, Instance(query[1..], sub));
    c := Descend(t, u).value;
    assert Covers(sub, query[1..]) by {
      assert forall i | 0 <= i < |query| - 1 :: query[1..][i] == query[i + 1];
    }
    if tok.IsVar() {
      QueryNeeds(query, n);
      DescendKeeps(t, n, u, 1);
    } else {
      DescendsOne(t, n, tok);
    }
  }

  lemma QueryNeeds(query: seq<Token>, n: nat)
    requires query != [] && IsQueryFrom(query, n)
    ensures n > 0
  {
  }

  lemma DescendsOne(t: Trie, n: nat, tok: Token)
    requires WellFormed(t, n) && Ground(t) && Descend(t, [tok]).Some?
    ensures n > 0 && WellFormed(Descend(t, [tok]).value, n - 1 + tok.arity) && Ground(Descend(t, [tok]).value)
  {
    assert [tok][1..] == [];
    assert Descend(t, [tok]) == match Child(t, tok) case None => None case Some(c) => Descend(c, []);
    SomeEntry(t, n, tok);
  }

  /** The path is guessed if what is left is. */
  lemma GuessFixed(t: Trie, query: seq<Token>, bound: Substitution, sub: Substitution, c: Trie)
    requires query != [] && BoundIn(bound, sub) && (query[0].IsVar() ==> query[0].id in bound)
    requires Descend(t, Replaced(query[0], sub)) == Some(c)
    ensures Guess(t, Reversed(query), bound) == Some(Instance(query, sub))
       <==> Guess(c, Reversed(query[1..]), bound) == Some(Instance(query[1..], sub))
  {
    hide Descend, Constants;
    var u, rest := Replaced(query[0], sub), query[1..];
    var stack := Reversed(query);
    assert Last(stack) == query[0] && Init(stack) == Reversed(rest);
    assert query == [query[0]] + rest;
    if query[0].IsVar() {
      assert Reversed(rest) + Reversed(u) == Reversed(u + rest);
    } else {
      OneConstant(query[0]);
    }
    assert Guess(t, stack, bound) == Guess(t, Reversed(u + rest), bound);
    GuessConstants(t, u, rest, bound);
    BehindSame(u, Guess(c, Reversed(rest), bound), Instance(rest, sub));
  }

  lemma OneConstant(tok: Token)
    requires !tok.IsVar()
    ensures Constants([tok])
  {
  }

  lemma BehindSame(u: seq<Token>, r: Option<seq<Token>>, w: seq<Token>)
    ensures Behind(u, r) == Some(u + w) <==> r == Some(w)
  {
    if r.Some? && u + r.value == u + w {
      assert r.value == (u + r.value)[|u|..] == (u + w)[|u|..] == w;
    }
  }

  /** A free variable takes the first term. */
  lemma GuessFree(t: Trie, n: nat, query: seq<Token>, bound: Substitution, sub: Substitution, c: Trie)
    requires WellFormed(t, n) && n > 0 && Ground(t) && query != [] && query[0].IsVar() && query[0].id !in bound
    requires AreCodes(sub) && query[0].id in sub && Descend(t, Replaced(query[0], sub)) == Some(c)
    ensures var u := Replaced(query[0], sub);
            (Guess(t, Reversed(query), bound) == Some(Instance(query, sub))
            <==>
            && Leftmost(t, u)
            && Guess(c, Reversed(query[1..]), bound[query[0].id as nat := u]) == Some(Instance(query[1..], sub)))
  {
    hide Leftmost, WellFormed, Ground, Descend, FirstTerms, IsCode;
    var tok, u, rest := query[0], Replaced(query[0], sub), query[1..];
    var stack := Reversed(query);
    assert Last(stack) == tok && Init(stack) == Reversed(rest);
    var (w, x) := FirstTerms(t, 1);
    FirstTermsAre(t, 1, n);
    assert [] + w == w;
    var r := Guess(x, Reversed(rest), bound[tok.id as nat := w]);
    assert Guess(t, stack, bound) == Behind(w, r);
    if Leftmost(t, u) {
      LeftmostUnique(t, u, w, 1);
      BehindSame(u, r, Instance(rest, sub));
    } else if Behind(w, r) == Some(u + Instance(rest, sub)) {
      SameFirstCode(w, r.value, u, Instance(rest, sub));
    }
  }

  lemma SameFirstCode(w: seq<Token>, r: seq<Token>, u: seq<Token>, s: seq<Token>)
    requires IsCode(w, 1) && IsCode(u, 1) && w + r == u + s
    ensures w == u
  {
    assert (w + r)[..|w|] == w && (u + s)[..|u|] == u;
    CodePrefixUnique(w + r, |w|, 1);
    CodePrefixUnique(w + r, |u|, 1);
  }

  /** What is guessed is an indexed instance. */
  lemma {:induction false} GuessFinds(t: Trie, n: nat, query: seq<Token>, bound: Substitution)
      returns (sub: Substitution)
    requires WellFormed(t, n) && Ground(t) && IsQueryFrom(query, n) && AreCodes(bound) && BoundIn(bound, bound)
    requires Guess(t, Reversed(query), bound).Some?
    ensures Finds(t, query, sub) && BoundIn(bound, sub)
            && Guess(t, Reversed(query), bound) == Some(Instance(query, sub))
    decreases |query|
  {
    hide WellFormed, Ground, Guess, GuessFrom, IsCode, Descend, Reversed, Constants, Replaced;
    if query == [] {
      GuessNothing(t, bound);
      AtLeaf(t);
      sub := bound;
    } else {
      var tok, rest := query[0], query[1..];
      var u, c, bound' := FirstGuessed(t, n, query, bound);
      sub := GuessFinds(c, n - 1 + if tok.IsVar() then 0 else tok.arity, rest, bound');
      assert u == Replaced(tok, sub) by { TakenIsReplaced(tok, u, bound', sub); }
      DescendConcat(t, u, Instance(rest, sub));
      assert Covers(sub, query) by {
        assert forall i | 0 < i < |query| :: rest[i - 1] == query[i];
      }
    }
  }

  lemma AtLeaf(t: Trie)
    requires WellFormed(t, 0)
    ensures IsLeafPath(t, [])
  {
  }

  lemma TakenIsReplaced(tok: Token, u: seq<Token>, bound: Substitution, sub: Substitution)
    requires if tok.IsVar() then tok.id in bound && bound[tok.id] == u else u == [tok]
    requires BoundIn(bound, sub)
    ensures Replaced(tok, sub) == u
  {
  }

  /** What the first token of the query is matched with. */
  lemma FirstGuessed(t: Trie, n: nat, query: seq<Token>, bound: Substitution)
      returns (u: seq<Token>, c: Trie, bound': Substitution)
    requires WellFormed(t, n) && Ground(t) && query != [] && IsQueryFrom(query, n) && AreCodes(bound)
             && BoundIn(bound, bound)
    requires Guess(t, Reversed(query), bound).Some?
    ensures if query[0].IsVar() then query[0].id in bound' && bound'[query[0].id] == u else u == [query[0]]
    ensures AreCodes(bound') && BoundIn(bound', bound') && BoundIn(bound, bound') && Descend(t, u) == Some(c)
    ensures WellFormed(c, n - 1 + if query[0].IsVar() then 0 else query[0].arity) && Ground(c)
    ensures Guess(t, Reversed(query), bound) == Behind(u, Guess(c, Reversed(query[1..]), bound'))
  {
    hide WellFormed, Ground, FirstTerms, Leftmost, IsCode, Descend, Constants;
    var tok, rest, stack := query[0], query[1..], Reversed(query);
    assert Last(stack) == tok && Init(stack) == Reversed(rest);
    assert query == [tok] + rest;
    QueryNeeds(query, n);
    if tok.IsVar() && tok.id !in bound {
      FirstTermsAre(t, 1, n);
      u, c := FirstTerms(t, 1).0, FirstTerms(t, 1).1;
      assert [] + u == u;
      bound' := bound[tok.id as nat := u];
    } else {
      bound' := bound;
      if tok.IsVar() {
        u := bound[tok.id];
        assert Reversed(rest) + Reversed(u) == Reversed(u + rest);
      } else {
        u := [tok];
        OneConstant(tok);
      }
      GuessConstants(t, u, rest, bound);
      c := Descend(t, u).value;
      if tok.IsVar() {
        DescendKeeps(t, n, u, 1);
      } else {
        DescendsOne(t, n, tok);
      }
    }
  }

  /** w is indexed and an instance of the query in which variables take first entries. */
  ghost predicate Reported(tree: Trie, query: seq<Token>, w: seq<Token>)
  {
    exists sub :: Finds(tree, query, sub) && Leading(tree, query, {}, sub) && w == Instance(query, sub)
  }

  /** In every indexed instance the variables take first entries. */
  ghost predicate AllLeading(tree: Trie, query: seq<Token>)
  {
    forall sub | Finds(tree, query, sub) :: Leading(tree, query, {}, sub)
  }

  /** Reported is exactly the indexed instance whose variables take first entries. */
  lemma ReportedExactly(tree: Trie, query: seq<Token>, paths: seq<seq<Token>>, w: seq<Token>)
    requires InBounds(tree, query) && Reports(tree, query, paths)
    ensures w in paths <==> Reported(tree, query, w)
  {
    hide Leading, Guess, Instance, Reversed, Finds, WellFormed, Ground, IsQueryFrom;
    var bound: Substitution := map[];
    assert bound.Keys == {};
    if w in paths {
      var sub := GuessFinds(tree, 1, query, bound);
      GuessedIffLeading(tree, 1, query, bound, sub);
    }
    forall sub | Finds(tree, query, sub) && Leading(tree, query, {}, sub) && w == Instance(query, sub)
      ensures w in paths
    {
      GuessedIffLeading(tree, 1, query, bound, sub);
      assert paths[0] == w;
    }
  }

  /** A run answers completely exactly when every indexed instance is one whose variables take
      first entries. */
  lemma AnsweredIffLeading(tree: Trie, query: seq<Token>, paths: seq<seq<Token>>)
    requires InBounds(tree, query) && Reports(tree, query, paths)
    ensures Answered(tree, query, paths) <==> AllLeading(tree, query)
  {
    hide Leading, Guess, Instance, Reversed;
    forall sub | Finds(tree, query, sub)
      ensures Leading(tree, query, {}, sub) <==> Instance(query, sub) in paths
    {
      var bound: Substitution := map[];
      GuessedIffLeading(tree, 1, query, bound, sub);
      assert bound.Keys == {};
      if Leading(tree, query, {}, sub) {
        assert paths[0] == Instance(query, sub);
      }
    }
    if Answered(tree, query, paths) {
      forall sub | Finds(tree, query, sub)
        ensures Leading(tree, query, {}, sub)
      {
        assert IsInstanceOf(query, Instance(query, sub));
      }
    }
    if AllLeading(tree, query) {
      forall w | IsLeafPath(tree, w) && IsInstanceOf(query, w)
        ensures w in paths
      {
        var sub: Substitution :| AreCodes(sub) && Covers(sub, query) && w == Instance(query, sub);
        assert Finds(tree, query, sub);
      }
    }
  }

  // ---------------------------------------------------------------- an index of two formulae

  ghost function Chain(w: seq<Token>): Trie
    decreases |w|
  {
    if w == [] then Leaf(1, 1) else Inner([Edge(w[0], Chain(w[1..]))])
  }

  /** The index that holds v and w. */
  ghost function Pair(v: seq<Token>, w: seq<Token>): Trie
    requires v != w
    decreases |v|
  {
    if v == [] || w == [] then Leaf(1, 1)
    else if v[0] == w[0] then
      assert v == [v[0]] + v[1..] && w == [w[0]] + w[1..];
      Inner([Edge(v[0], Pair(v[1..], w[1..]))])
    else if v[0].Rank() < w[0].Rank() then Inner([Edge(v[0], Chain(v[1..])), Edge(w[0], Chain(w[1..]))])
    else Inner([Edge(w[0], Chain(w[1..])), Edge(v[0], Chain(v[1..]))])
  }

  /** t is an index of codes no longer than n that holds the path w. */
  ghost predicate Holds(t: Trie, need: nat, n: nat, w: seq<Token>)
  {
    WellFormed(t, need) && Ground(t) && Height(t) <= n && IsLeafPath(t, w)
  }

  lemma {:induction false} ChainHolds(w: seq<Token>, need: nat)
    requires IsCode(w, need) && Constants(w)
    ensures Holds(Chain(w), need, |w|, w)
    decreases |w|
  {
    if w != [] {
      ChainHolds(w[1..], need - 1 + w[0].arity);
      OneEdge(w[0], Chain(w[1..]), w);
    }
  }

  /** A node with one edge. */
  lemma OneEdge(tok: Token, c: Trie, w: seq<Token>)
    requires w != [] && w[0] == tok
    ensures var t := Inner([Edge(tok, c)]);
            Sorted(t.kids) && Height(t) == 1 + Height(c) && Descend(t, w) == Descend(c, w[1..])
  {
    var t := Inner([Edge(tok, c)]);
    assert HeightFrom(t, 1) == 0;
    ChildAt(t, 0);
  }

  lemma TwoEdges(a: Token, x: Trie, b: Token, y: Trie, v: seq<Token>, w: seq<Token>)
    requires a.Rank() < b.Rank() && v != [] && w != [] && v[0] == a && w[0] == b
    ensures var t := Inner([Edge(a, x), Edge(b, y)]);
            && Sorted(t.kids) && Height(t) == 1 + (if Height(x) > Height(y) then Height(x) else Height(y))
            && Descend(t, v) == Descend(x, v[1..]) && Descend(t, w) == Descend(y, w[1..])
  {
    var t := Inner([Edge(a, x), Edge(b, y)]);
    assert HeightFrom(t, 2) == 0 && HeightFrom(t, 1) == Height(y);
    assert Sorted(t.kids);
    ChildAt(t, 0);
    ChildAt(t, 1);
  }

  lemma {:induction false} PairHolds(v: seq<Token>, w: seq<Token>, need: nat)
    requires v != w && |v| == |w| && IsCode(v, need) && IsCode(w, need) && Constants(v) && Constants(w)
    ensures Holds(Pair(v, w), need, |v|, v) && Holds(Pair(v, w), need, |v|, w)
    decreases |v|
  {
    hide Token.Rank, Descend, Chain, Height, Child;
    if v[0].Rank() == w[0].Rank() {
      RankInjective(v[0], w[0]);
      assert v == [v[0]] + v[1..] && w == [w[0]] + w[1..];
      PairHolds(v[1..], w[1..], need - 1 + v[0].arity);
      OneEdge(v[0], Pair(v[1..], w[1..]), v);
      OneEdge(v[0], Pair(v[1..], w[1..]), w);
    } else {
      ChainHolds(v[1..], need - 1 + v[0].arity);
      ChainHolds(w[1..], need - 1 + w[0].arity);
      if v[0].Rank() < w[0].Rank() {
        TwoEdges(v[0], Chain(v[1..]), w[0], Chain(w[1..]), v, w);
      } else {
        TwoEdges(w[0], Chain(w[1..]), v[0], Chain(v[1..]), w, v);
      }
    }
  }

  /** The query with the constant c for every variable. */
  function Filled(query: seq<Token>, c: Token): (w: seq<Token>)
    ensures |w| == |query|
    ensures forall i | 0 <= i < |query| :: w[i] == if query[i].IsVar() then c else query[i]
  {
    seq(|query|, i requires 0 <= i < |query| => if query[i].IsVar() then c else query[i])
  }

  lemma {:induction false} FilledIsCode(query: seq<Token>, n: nat, c: Token)
    requires IsQueryFrom(query, n) && c.arity == 0
    ensures IsCode(Filled(query, c), n)
    decreases |query|
  {
    if query != [] {
      FilledIsCode(query[1..], n - 1 + if query[0].IsVar() then 0 else query[0].arity, c);
      assert Filled(query, c)[1..] == Filled(query[1..], c);
    }
  }

  lemma {:induction false} FillingGives(query: seq<Token>, c: Token, sub: Substitution)
    requires Covers(sub, query) && forall v | v in sub :: sub[v] == [c]
    ensures Instance(query, sub) == Filled(query, c)
    decreases |query|
  {
    if query != [] {
      assert Covers(sub, query[1..]) by {
        assert forall i | 0 <= i < |query| - 1 :: query[1..][i] == query[i + 1];
      }
      FillingGives(query[1..], c, sub);
      assert Filled(query, c) == [Filled(query, c)[0]] + Filled(query[1..], c);
    }
  }

  lemma FilledIsInstance(query: seq<Token>, c: Token)
    requires c.arity == 0
    ensures IsInstanceOf(query, Filled(query, c))
  {
    var sub: Substitution := map tok: Token | tok in query && tok.IsVar() :: tok.id := [c];
    FillingGives(query, c, sub);
    assert IsCode([c][1..], 0) && IsCode([c], 1);
    assert AreCodes(sub);
  }

  // ---------------------------------------------------------------- when the engine is complete

  /** Two indexed instances: one of them is not reported. */
  lemma NotBothFound(tree: Trie, query: seq<Token>, v: seq<Token>, w: seq<Token>, paths: seq<seq<Token>>)
    requires v != w && IsLeafPath(tree, v) && IsLeafPath(tree, w) && IsInstanceOf(query, v) && IsInstanceOf(query, w)
    requires Reports(tree, query, paths)
    ensures !Answered(tree, query, paths)
  {
    hide IsInstanceOf, FirstGuess, IsLeafPath;
    if v in paths {
      assert FirstGuess(tree, query) == Some(v);
      assert w !in paths;
    }
  }

  lemma ConstantsComplete(tree: Trie, query: seq<Token>, paths: seq<seq<Token>>)
    requires InBounds(tree, query) && Constants(query) && Reports(tree, query, paths)
    ensures Answered(tree, query, paths)
  {
    hide InBounds, Reports, Answered, Finds;
    forall sub | Finds(tree, query, sub)
      ensures Leading(tree, query, {}, sub)
    {
      assert forall i | 0 <= i < |query| :: !New(query, i, {});
    }
    AnsweredIffLeading(tree, query, paths);
  }

  lemma ReportsExist(tree: Trie, query: seq<Token>) returns (paths: seq<seq<Token>>)
    ensures Reports(tree, query, paths)
  {
    hide FirstGuess;
    var r := FirstGuess(tree, query);
    paths := if r.Some? then [r.value] else [];
  }

  /** With a variable in the query there is an index of two instances. */
  lemma TwoInstances(query: seq<Token>) returns (tree: Trie, v: seq<Token>, w: seq<Token>)
    requires QueryInBounds(query) && !Constants(query)
    ensures InBounds(tree, query) && v != w && IsLeafPath(tree, v) && IsLeafPath(tree, w)
    ensures IsInstanceOf(query, v) && IsInstanceOf(query, w)
  {
    hide IsInstanceOf, IsCode, IsLeafPath, Pair, WellFormed, Ground, Height;
    var a, b := Token(200, 0), Token(201, 0);
    v, w := Filled(query, a), Filled(query, b);
    var i :| 0 <= i < |query| && query[i].IsVar();
    assert v[i] != w[i];
    FilledIsCode(query, 1, a);
    FilledIsCode(query, 1, b);
    FilledIsInstance(query, a);
    FilledIsInstance(query, b);
    PairHolds(v, w, 1);
    tree := Pair(v, w);
  }

  /** The queries that are answered completely on every index are those without variables. */
  lemma CompleteIffNoVariable(query: seq<Token>)
    requires QueryInBounds(query)
    ensures Constants(query)
       <==> forall tree, paths | InBounds(tree, query) && Reports(tree, query, paths) :: Answered(tree, query, paths)
  {
    hide InBounds, Reports, Answered, Constants, IsLeafPath, IsInstanceOf, QueryInBounds;
    forall tree, paths | Constants(query) && InBounds(tree, query) && Reports(tree, query, paths)
      ensures Answered(tree, query, paths)
    {
      ConstantsComplete(tree, query, paths);
    }
    if !Constants(query) {
      var tree, v, w := TwoInstances(query);
      var paths := ReportsExist(tree, query);
      NotBothFound(tree, query, v, w, paths);
    }
  }

  /** The index holds one formula. */
  ghost predicate OneFormula(tree: Trie)
  {
    |Leaves([], tree)| == 1
  }

  lemma OnePath(tree: Trie, v: seq<Token>, w: seq<Token>)
    requires WellFormed(tree, 1) && OneFormula(tree) && IsLeafPath(tree, v) && IsLeafPath(tree, w)
    ensures v == w
  {
    hide WellFormed, Leaves, Descend;
    LeavesExact(tree);
    var x, y := Spot(v, Descend(tree, v).value), Spot(w, Descend(tree, w).value);
    assert x in Leaves([], tree) && y in Leaves([], tree);
    assert x == Leaves([], tree)[0] == y;
  }

  lemma TwoPaths(tree: Trie) returns (v: seq<Token>, w: seq<Token>)
    requires WellFormed(tree, 1) && !OneFormula(tree)
    ensures v != w && IsLeafPath(tree, v) && IsLeafPath(tree, w) && IsCode(v, 1) && IsCode(w, 1)
  {
    hide WellFormed, Leaves, Descend, LexLess;
    SpotsNonEmpty([], tree, 1, 1);
    LeavesAreSpots([], tree, 1);
    LeavesExact(tree);
    var ss := Leaves([], tree);
    assert ss[0] in ss && ss[1] in ss;
    v, w := ss[0].path, ss[1].path;
    assert v[0..] == v && w[0..] == w;
    assert LexLess(ss[0].path[0..], ss[1].path[0..]);
    LexLessIrreflexive(v);
  }

  lemma {:induction false} SomeLeafPath(t: Trie, n: nat) returns (p: seq<Token>)
    requires WellFormed(t, n)
    ensures IsLeafPath(t, p)
    decreases t
  {
    if t.Leaf? {
      p := [];
    } else {
      var e := t.kids[0];
      var q := SomeLeafPath(e.node, n - 1 + e.tok.arity);
      ChildAt(t, 0);
      p := [e.tok] + q;
      assert p[1..] == q;
    }
  }

  /** The only path takes first entries. */
  lemma {:induction false} OnlyPathLeftmost(t: Trie, n: nat, w: seq<Token>)
    requires WellFormed(t, n) && IsLeafPath(t, w) && forall p | IsLeafPath(t, p) :: p == w
    ensures Leftmost(t, w)
    decreases |w|
  {
    if w != [] {
      var p := SomeLeafPath(t, n);
      FirstOfPath(t, n, w);
      var e := t.kids[0];
      ChildAt(t, 0);
      forall q | IsLeafPath(e.node, q)
        ensures q == w[1..]
      {
        assert ([e.tok] + q)[1..] == q;
        assert IsLeafPath(t, [e.tok] + q);
      }
      OnlyPathLeftmost(e.node, n - 1 + e.tok.arity, w[1..]);
    }
  }

  lemma FirstOfPath(t: Trie, n: nat, w: seq<Token>)
    requires WellFormed(t, n) && w != [] && IsLeafPath(t, w) && forall p | IsLeafPath(t, p) :: p == w
    ensures t.Inner? && t.kids[0].tok == w[0]
  {
    hide IsLeafPath;
    NotALeaf(t, w);
    var e := t.kids[0];
    var q := SomeLeafPath(e.node, n - 1 + e.tok.arity);
    ThroughFirst(t, q);
    assert ([e.tok] + q)[0] == e.tok;
  }

  lemma NotALeaf(t: Trie, w: seq<Token>)
    requires w != [] && IsLeafPath(t, w)
    ensures t.Inner?
  {
  }

  lemma ThroughFirst(t: Trie, q: seq<Token>)
    requires t.Inner? && t.kids != [] && Sorted(t.kids) && IsLeafPath(t.kids[0].node, q)
    ensures IsLeafPath(t, [t.kids[0].tok] + q)
  {
    ChildAt(t, 0);
    assert ([t.kids[0].tok] + q)[1..] == q;
  }

  lemma {:induction false} LeftmostWithin(t: Trie, n: nat, v: seq<Token>, u: seq<Token>, w: seq<Token>)
    requires WellFormed(t, n) && Leftmost(t, v + (u + w))
    ensures LeftmostAt(t, v, u)
    decreases |v|
  {
    if v == [] {
      assert v + (u + w) == u + w;
      LeftmostPrefix(t, u, w);
    } else {
      assert (v + (u + w))[1..] == v[1..] + (u + w);
      ChildAt(t, 0);
      LeftmostWithin(t.kids[0].node, n - 1 + v[0].arity, v[1..], u, w);
    }
  }

  lemma {:induction false} LeftmostPrefix(t: Trie, u: seq<Token>, w: seq<Token>)
    requires Leftmost(t, u + w)
    ensures Leftmost(t, u)
    decreases |u|
  {
    if u != [] {
      assert (u + w)[1..] == u[1..] + w;
      LeftmostPrefix(t.kids[0].node, u[1..], w);
    }
  }

  lemma {:induction false} InstanceAt(query: seq<Token>, i: nat, sub: Substitution)
    requires i < |query|
    ensures Instance(query, sub) == Instance(query[..i], sub)
            + (Replaced(query[i], sub) + Instance(query[i + 1..], sub))
    decreases i
  {
    if i > 0 {
      assert query[..i][0] == query[0] && query[..i][1..] == query[1..][..i - 1];
      InstanceAt(query[1..], i - 1, sub);
      assert query[1..][i..] == query[i + 1..];
    }
  }

  lemma OneFormulaComplete(tree: Trie, query: seq<Token>, paths: seq<seq<Token>>)
    requires InBounds(tree, query) && OneFormula(tree) && Reports(tree, query, paths)
    ensures Answered(tree, query, paths)
  {
    hide Reports, Answered, OneFormula, IsLeafPath, WellFormed, Instance;
    forall sub | Finds(tree, query, sub)
      ensures Leading(tree, query, {}, sub)
    {
      var w := Instance(query, sub);
      forall p | IsLeafPath(tree, p)
        ensures p == w
      {
        OnePath(tree, p, w);
      }
      OnlyPathLeftmost(tree, 1, w);
      forall i | 0 <= i < |query|
        ensures LeftmostAt(tree, Instance(query[..i], sub), Replaced(query[i], sub))
      {
        InstanceAt(query, i, sub);
        LeftmostWithin(tree, 1, Instance(query[..i], sub), Replaced(query[i], sub), Instance(query[i + 1..], sub));
      }
    }
    AnsweredIffLeading(tree, query, paths);
  }

  /** The indices on which every query is answered completely are those of one formula. */
  lemma CompleteIffOneFormula(tree: Trie)
    requires IndexInBounds(tree)
    ensures OneFormula(tree)
       <==> forall query, paths | InBounds(tree, query) && Reports(tree, query, paths) :: Answered(tree, query, paths)
  {
    hide Reports, Answered, OneFormula, IsLeafPath, WellFormed, Ground, Height, IsInstanceOf;
    forall query, paths | OneFormula(tree) && InBounds(tree, query) && Reports(tree, query, paths)
      ensures Answered(tree, query, paths)
    {
      OneFormulaComplete(tree, query, paths);
    }
    if !OneFormula(tree) {
      var v, w := TwoPaths(tree);
      var x := Token(65, 0);
      VariableMatches(x, v);
      VariableMatches(x, w);
      assert IsQueryFrom([x][1..], 0) && IsQueryFrom([x], 1);
      var paths := ReportsExist(tree, [x]);
      NotBothFound(tree, [x], v, w, paths);
    }
  }

  // ---------------------------------------------------------------- how often it is reported

  /** The product of the numbers of entries of the nodes on a path. */
  ghost function Width(t: Trie, w: seq<Token>): nat
    decreases |w|
  {
    if w == [] || t.Leaf? then 1
    else match Child(t, w[0])
      case None => 1
      case Some(c) => |t.kids| * Width(c, w[1..])
  }

  /** The product of the widths of the terms that variables take where they first occur. */
  ghost function Times(t: Trie, query: seq<Token>, seen: set<nat>, sub: Substitution): nat
    requires Covers(sub, query) && Descend(t, Instance(query, sub)).Some?
    decreases |query|
  {
    if query == [] then 1
    else
      var tok, u := query[0], Replaced(query[0], sub);
      DescendConcat(t, u, Instance(query[1..], sub));
      var rest := Times(Descend(t, u).value, query[1..], if tok.IsVar() then seen + {tok.id} else seen, sub);
      if tok.IsVar() && tok.id !in seen then Width(t, u) * rest else rest
  }

  lemma {:induction false} PassesAreWidth(t: Trie, a: nat, n: nat)
    requires WellFormed(t, n) && Ground(t) && a <= n
    ensures Passes(t, a) == Width(t, FirstTerms(t, a).0)
    decreases t
  {
    hide WellFormed, Ground, Child;
    if a > 0 {
      FirstEntry(t, n);
      var e := t.kids[0];
      PassesAreWidth(e.node, a - 1 + e.tok.arity, n - 1 + e.tok.arity);
      var (u, x) := FirstTerms(e.node, a - 1 + e.tok.arity);
      assert ([e.tok] + u)[1..] == u;
    }
  }

  /** Constants on the stack are followed into the trie. */
  lemma {:induction false} CountConstants(t: Trie, u: seq<Token>, query: seq<Token>, bound: Substitution)
    requires Constants(u) && Descend(t, u).Some?
    ensures Count(t, Reversed(u + query), bound) == Count(Descend(t, u).value, Reversed(query), bound)
    decreases |u|
  {
    if u == [] {
      assert u + query == query;
    } else {
      var stack := Reversed(u + query);
      assert (u + query)[1..] == u[1..] + query;
      assert Last(stack) == u[0] && Init(stack) == Reversed(u[1..] + query);
      CountConstant(t, stack, bound);
      CountConstants(Child(t, u[0]).value, u[1..], query, bound);
    }
  }

  /** The instance that is reported is reported as often as there are ways through the loops. */
  lemma {:induction false} CountIsTimes(t: Trie, n: nat, query: seq<Token>, bound: Substitution, sub: Substitution)
    requires WellFormed(t, n) && Ground(t) && IsQueryFrom(query, n) && Finds(t, query, sub) && BoundIn(bound, sub)
    requires Leading(t, query, bound.Keys, sub)
    ensures Count(t, Reversed(query), bound) == Times(t, query, bound.Keys, sub)
    decreases |query|
  {
    hide Leading, Leftmost, WellFormed, Ground, Count, CountFrom, Width, IsCode, Descend;
    if query == [] {
      CountOfNothing(t, bound);
    } else {
      var tok, u, rest := query[0], Replaced(query[0], sub), query[1..];
      var c := FindsBelow(t, n, query, sub);
      LeadingStep(t, query, bound.Keys, sub, c);
      var m := n - 1 + if tok.IsVar() then 0 else tok.arity;
      if !tok.IsVar() || tok.id in bound {
        assert tok.IsVar() ==> bound.Keys + {tok.id} == bound.Keys;
        CountIsTimes(c, m, rest, bound, sub);
        CountFixed(t, query, bound, sub, c);
      } else {
        var bound' := bound[tok.id as nat := u];
        assert bound'.Keys == bound.Keys + {tok.id};
        CountIsTimes(c, m, rest, bound', sub);
        CountFree(t, n, query, bound, sub, c);
      }
    }
  }

  lemma CountOfNothing(t: Trie, bound: Substitution)
    ensures Count(t, Reversed([]), bound) == 1
  {
    var query: seq<Token> := [];
    assert Reversed(query) == query;
  }

  lemma CountFixed(t: Trie, query: seq<Token>, bound: Substitution, sub: Substitution, c: Trie)
    requires query != [] && BoundIn(bound, sub) && (query[0].IsVar() ==> query[0].id in bound)
    requires Descend(t, Replaced(query[0], sub)) == Some(c)
    ensures Count(t, Reversed(query), bound) == Count(c, Reversed(query[1..]), bound)
  {
    hide Descend, Constants;
    var u, rest := Replaced(query[0], sub), query[1..];
    var stack := Reversed(query);
    assert Last(stack) == query[0] && Init(stack) == Reversed(rest);
    assert query == [query[0]] + rest;
    if query[0].IsVar() {
      assert Reversed(rest) + Reversed(u) == Reversed(u + rest);
    } else {
      OneConstant(query[0]);
    }
    assert Count(t, stack, bound) == Count(t, Reversed(u + rest), bound);
    CountConstants(t, u, rest, bound);
  }

  lemma CountFree(t: Trie, n: nat, query: seq<Token>, bound: Substitution, sub: Substitution, c: Trie)
    requires WellFormed(t, n) && n > 0 && Ground(t) && query != [] && query[0].IsVar() && query[0].id !in bound
    requires AreCodes(sub) && query[0].id in sub && Descend(t, Replaced(query[0], sub)) == Some(c)
    requires Leftmost(t, Replaced(query[0], sub))
    ensures var u := Replaced(query[0], sub);
            Count(t, Reversed(query), bound)
                == Width(t, u) * Count(c, Reversed(query[1..]), bound[query[0].id as nat := u])
  {
    hide Leftmost, WellFormed, Ground, Descend, FirstTerms, IsCode, Width, Passes;
    var tok, u, rest := query[0], Replaced(query[0], sub), query[1..];
    var stack := Reversed(query);
    assert Last(stack) == tok && Init(stack) == Reversed(rest);
    var (w, x) := FirstTerms(t, 1);
    FirstTermsAre(t, 1, n);
    LeftmostUnique(t, u, w, 1);
    PassesAreWidth(t, 1, n);
    assert [] + w == w;
  }

  /** So the answer that a run gives is given that many times. */
  lemma CountExactly(tree: Trie, query: seq<Token>)
    requires InBounds(tree, query)
    ensures forall sub | Finds(tree, query, sub) && Leading(tree, query, {}, sub) ::
              FirstCount(tree, query) == Times(tree, query, {}, sub)
    ensures (forall sub | Finds(tree, query, sub) :: !Leading(tree, query, {}, sub)) ==> FirstCount(tree, query) == 0
  {
    hide Leading, Guess, Count, Instance, Reversed, WellFormed, Ground, IsQueryFrom, Times;
    var bound: Substitution := map[];
    assert bound.Keys == {};
    forall sub | Finds(tree, query, sub) && Leading(tree, query, {}, sub)
      ensures FirstCount(tree, query) == Times(tree, query, {}, sub)
    {
      CountIsTimes(tree, 1, query, bound, sub);
    }
    CountedIffGuessed(tree, Reversed(query), bound);
    if FirstCount(tree, query) > 0 {
      var sub := GuessFinds(tree, 1, query, bound);
      GuessedIffLeading(tree, 1, query, bound, sub);
    }
  }

  /** What holds of a run that is not stopped. */
  lemma RunIsExact(tree: Trie, query: seq<Token>, paths: seq<seq<Token>>)
    requires InBounds(tree, query) && Reports(tree, query, paths)
    ensures forall w :: w in paths <==> Reported(tree, query, w)
    ensures Answered(tree, query, paths) <==> AllLeading(tree, query)
    ensures Constants(query) || OneFormula(tree) ==> Answered(tree, query, paths)
  {
    hide *;
    forall w
      ensures w in paths <==> Reported(tree, query, w)
    {
      ReportedExactly(tree, query, paths, w);
    }
    AnsweredIffLeading(tree, query, paths);
    if Constants(query) {
      ConstantsComplete(tree, query, paths);
    } else if OneFormula(tree) {
      OneFormulaComplete(tree, query, paths);
    }
  }

  // ---------------------------------------------------------------- what is missed

  lemma {:induction false} ChainOnly(w: seq<Token>, p: seq<Token>)
    requires IsLeafPath(Chain(w), p)
    ensures p == w
    decreases |w|
  {
    if w != [] {
      assert p[0] == w[0];
      ChildAt(Chain(w), 0);
      ChainOnly(w[1..], p[1..]);
      assert p == [p[0]] + p[1..] && w == [w[0]] + w[1..];
    }
  }

  lemma {:induction false} PairOnly(v: seq<Token>, w: seq<Token>, p: seq<Token>)
    requires v != w && |v| == |w| && IsLeafPath(Pair(v, w), p)
    ensures p == v || p == w
    decreases |v|
  {
    var t := Pair(v, w);
    ChildIsEntry(t, p);
    var k := KeyIndex(t.kids, p[0]);
    assert v == [v[0]] + v[1..] && w == [w[0]] + w[1..] && p == [p[0]] + p[1..];
    if v[0] == w[0] {
      PairOnly(v[1..], w[1..], p[1..]);
    } else if p[0] == v[0] {
      ChainOnly(v[1..], p[1..]);
    } else {
      ChainOnly(w[1..], p[1..]);
    }
  }

  lemma ChildIsEntry(t: Trie, p: seq<Token>)
    requires t.Inner? && IsLeafPath(t, p)
    ensures p != [] && HasKey(t.kids, p[0])
    ensures IsLeafPath(t.kids[KeyIndex(t.kids, p[0])].node, p[1..])
  {
  }

  /** f(a, b) and f(b, a) are indexed, and f(x, a) is asked: the only instance is missed. */
  lemma OnlyInstanceMissed()
    ensures var f, a, b, x := Token(202, 2), Token(200, 0), Token(201, 0), Token(65, 0);
            var tree, query := Pair([f, a, b], [f, b, a]), [f, x, a];
            && InBounds(tree, query) && FirstGuess(tree, query) == None
            && forall p :: IsLeafPath(tree, p) && IsInstanceOf(query, p) <==> p == [f, b, a]
  {
    hide *;
    var f, a, b, x := Token(202, 2), Token(200, 0), Token(201, 0), Token(65, 0);
    var v, w, query := [f, a, b], [f, b, a], [f, x, a];
    var tree := Pair(v, w);
    assert FourTokens(f, x, a, b) by { FourGiven(); }
    MissedInBounds(f, x, a, b);
    forall p
      ensures IsLeafPath(tree, p) && IsInstanceOf(query, p) <==> p == w
    {
      OnlyInstance(f, x, a, b, p);
    }
    if FirstGuess(tree, query).Some? {
      NotGuessed(f, x, a, b, w);
    }
  }

  ghost predicate FourTokens(f: Token, x: Token, a: Token, b: Token)
  {
    && !f.IsVar() && x.IsVar() && x.id < VAR_ID_MAX && !a.IsVar() && !b.IsVar()
    && f.arity == 2 && a.arity == 0 && b.arity == 0 && a.Rank() < b.Rank()
  }

  lemma FourGiven()
    ensures FourTokens(Token(202, 2), Token(65, 0), Token(200, 0), Token(201, 0))
  {
  }

  lemma MissedInBounds(f: Token, x: Token, a: Token, b: Token)
    requires FourTokens(f, x, a, b)
    ensures var tree := Pair([f, a, b], [f, b, a]);
            InBounds(tree, [f, x, a]) && IsLeafPath(tree, [f, a, b]) && IsLeafPath(tree, [f, b, a])
  {
    hide Pair, IsLeafPath, WellFormed, Ground, Height, Token.Rank;
    var v, w, query := [f, a, b], [f, b, a], [f, x, a];
    assert v[1..] == [a, b] && v[1..][1..] == [b] && v[1..][1..][1..] == [];
    assert w[1..] == [b, a] && w[1..][1..] == [a] && w[1..][1..][1..] == [];
    assert v[1] != w[1];
    assert IsCode(v[1..][1..], 1) && IsCode(v[1..], 2) && IsCode(w[1..][1..], 1) && IsCode(w[1..], 2);
    PairHolds(v, w, 1);
    assert IsQueryFrom(query[1..][1..], 1) && IsQueryFrom(query[1..], 2);
    assert query[1..] == [x, a] && query[1..][1..] == [a] && query[1..][1..][1..] == [];
  }

  lemma OnlyInstance(f: Token, x: Token, a: Token, b: Token, p: seq<Token>)
    requires FourTokens(f, x, a, b)
    ensures IsLeafPath(Pair([f, a, b], [f, b, a]), p) && IsInstanceOf([f, x, a], p) <==> p == [f, b, a]
  {
    hide Pair, IsLeafPath, Token.Rank, IsInstanceOf;
    var v, w := [f, a, b], [f, b, a];
    assert v[1] != w[1];
    MissedInBounds(f, x, a, b);
    PutForX(f, x, a, [b]);
    assert [f] + [b] + [a] == w;
    if IsLeafPath(Pair(v, w), p) && IsInstanceOf([f, x, a], p) {
      PairOnly(v, w, p);
      EndsInA(f, x, a, p);
      assert v[|v| - 1] == b;
    }
  }

  /** An instance of f(x, a) puts one term between f and a. */
  lemma InstanceOfX(f: Token, x: Token, a: Token, sub: Substitution)
    requires x.IsVar() && !f.IsVar() && !a.IsVar() && x.id in sub
    ensures Instance([f, x, a], sub) == [f] + sub[x.id] + [a]
  {
    var query := [f, x, a];
    assert query[1..] == [x, a] && query[1..][1..] == [a] && query[1..][1..][1..] == [];
    assert Instance([a], sub) == [a] + [] && Instance([x, a], sub) == sub[x.id] + [a];
  }

  lemma PutForX(f: Token, x: Token, a: Token, u: seq<Token>)
    requires x.IsVar() && !f.IsVar() && !a.IsVar() && |u| == 1 && u[0].arity == 0
    ensures IsInstanceOf([f, x, a], [f] + u + [a])
  {
    var sub: Substitution := map[x.id as nat := u];
    InstanceOfX(f, x, a, sub);
    assert u[1..] == [] && IsCode(u, 1);
    assert AreCodes(sub);
  }

  lemma EndsInA(f: Token, x: Token, a: Token, p: seq<Token>)
    requires x.IsVar() && !f.IsVar() && !a.IsVar() && IsInstanceOf([f, x, a], p)
    ensures p != [] && p[|p| - 1] == a
  {
    var query := [f, x, a];
    var sub: Substitution :| AreCodes(sub) && Covers(sub, query) && p == Instance(query, sub);
    assert Covers(sub, query);
    assert query[1] == x && query[1].IsVar();
    assert x.id in sub;
    InstanceOfX(f, x, a, sub);
    assert p == ([f] + sub[x.id]) + [a];
  }

  /** For x the engine takes a, and then it looks for a where b is. */
  lemma NotGuessed(f: Token, x: Token, a: Token, b: Token, w: seq<Token>)
    requires FourTokens(f, x, a, b) && w == [f, b, a]
    ensures FirstGuess(Pair([f, a, b], w), [f, x, a]) == None
  {
    hide Guess, IsLeafPath, Pair, Token.Rank, Leading, Instance, LeftmostAt;
    var tree, query := Pair([f, a, b], w), [f, x, a];
    MissedInBounds(f, x, a, b);
    if FirstGuess(tree, query).Some? {
      var bound: Substitution := map[];
      assert bound.Keys == {};
      var sub := GuessFinds(tree, 1, query, bound);
      GuessedIffLeading(tree, 1, query, bound, sub);
      var p := Instance(query, sub);
      assert IsInstanceOf(query, p);
      OnlyInstance(f, x, a, b, p);
      InstanceOfX(f, x, a, sub);
      assert sub[x.id] == p[1..|p| - 1] == [b];
      FirstIsB(f, x, a, b, sub);
    }
  }

  lemma FirstIsB(f: Token, x: Token, a: Token, b: Token, sub: Substitution)
    requires FourTokens(f, x, a, b) && x.id in sub && sub[x.id] == [b]
    ensures !Leading(Pair([f, a, b], [f, b, a]), [f, x, a], {}, sub)
  {
    hide Token.Rank;
    var v, w, query := [f, a, b], [f, b, a], [f, x, a];
    var tree := Pair(v, w);
    assert v[1] != w[1] && v[1..] == [a, b] && w[1..] == [b, a];
    var t := Pair(v[1..], w[1..]);
    assert t.kids[0].tok == a;
    ChildAt(tree, 0);
    assert [f][1..] == [] && Descend(tree, [f]) == Some(t);
    assert query[..1] == [f] && Instance([f], sub) == [f] + [];
    assert New(query, 1, {});
    assert !Leftmost(t, [b]);
    assert !LeftmostAt(tree, Instance(query[..1], sub), Replaced(query[1], sub));
  }

  /** Every formula is an instance of the query of a single variable. */
  lemma VariableMatches(x: Token, w: seq<Token>)
    requires x.IsVar() && IsCode(w, 1)
    ensures IsInstanceOf([x], w)
  {
    var sub: Substitution := map[x.id as nat := w];
    assert [x][1..] == [];
    assert Instance([x], sub) == w + Instance([], sub) == w;
    assert AreCodes(sub);
  }

  /** But only the first formula of the index is found. */
  lemma VariableFindsFirst(tree: Trie, x: Token)
    requires x.IsVar()
    ensures FirstGuess(tree, [x]) == Some(FirstTerms(tree, 1).0)
  {
    assert Reversed([x]) == [x] && Init([x]) == [] && Last([x]) == x;
    var u := FirstTerms(tree, 1).0;
    assert u + [] == u;
    assert GuessFrom(tree, 1, x.id, [], [], map[]) == Some(u + []);
  }

  /** Two leaves a and b: the query of a single variable matches both, and only a is found. */
  lemma SecondLeafMissed()
    ensures var a, b, x := Token(200, 0), Token(201, 0), Token(65, 0);
            var tree := Inner([Edge(a, Leaf(1, 1)), Edge(b, Leaf(2, 1))]);
            && InBounds(tree, [x]) && Descend(tree, [b]) == Some(Leaf(2, 1)) && IsInstanceOf([x], [b])
            && FirstGuess(tree, [x]) == Some([a])
  {
    hide FirstGuess, IsInstanceOf, Instance;
    var a, b, x := Token(200, 0), Token(201, 0), Token(65, 0);
    var kids := [Edge(a, Leaf(1, 1)), Edge(b, Leaf(2, 1))];
    var tree := Inner(kids);
    TwoLeaves(tree, a, b);
    assert IsCode([b][1..], 0) && IsCode([b], 1);
    VariableMatches(x, [b]);
    VariableFindsFirst(tree, x);
    assert FirstTerms(Leaf(1, 1), 0) == ([], Leaf(1, 1));
    assert [a] + [] == [a];
    assert IsQueryFrom([x][1..], 0) && IsQueryFrom([x], 1);
  }

  lemma TwoLeaves(tree: Trie, a: Token, b: Token)
    requires tree == Inner([Edge(a, Leaf(1, 1)), Edge(b, Leaf(2, 1))]) && a.Rank() < b.Rank()
    requires a.arity == 0 && b.arity == 0 && !a.IsVar() && !b.IsVar()
    ensures WellFormed(tree, 1) && Ground(tree) && Height(tree) <= 1 && Descend(tree, [b]) == Some(Leaf(2, 1))
  {
    assert HeightFrom(tree, 2) == 0 && HeightFrom(tree, 1) == 0 && HeightFrom(tree, 0) == 0;
    assert Sorted(tree.kids);
    ChildAt(tree, 1);
    assert [b][1..] == [] && Descend(tree, [b]) == Descend(Leaf(2, 1), []);
  }
}
