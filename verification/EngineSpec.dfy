/** The experimental query engine: what a query on its stack stands for and when a leaf is a sound
    answer. Stacks have their top at the end. */
module EngineSpec {
  import opened Tokens
  import opened Terms
  import opened Tries
  import opened Wrappers

  const MAX_VAR_INSTANTIATION_SIZE := 256
  const MAX_QUERY_STACK_SIZE := 512

  datatype VarInstantiation = VarInstantiation(solved: bool, tokens: seq<Token>)

  type Bindings = seq<VarInstantiation>

  type Substitution = map<nat, seq<Token>>

  /** The tokens that replace a query token. */
  function Replaced(tok: Token, sub: Substitution): seq<Token> {
    if !tok.IsVar() then [tok] else if tok.id in sub then sub[tok.id] else []
  }

  /** The query on the stack with its variables replaced, top first. */
  function Apply(stack: seq<Token>, sub: Substitution): seq<Token>
    decreases |stack|
  {
    if stack == [] then [] else Replaced(Last(stack), sub) + Apply(Init(stack), sub)
  }

  /** The stack holds n query terms; variables have no children. */
  ghost predicate IsQuery(stack: seq<Token>, n: nat)
    decreases |stack|
  {
    if stack == [] then n == 0
    else n > 0 && IsQuery(Init(stack), n - 1 + if Last(stack).IsVar() then 0 else Last(stack).arity)
  }

  function NumVars(stack: seq<Token>): nat
    decreases |stack|
  {
    if stack == [] then 0 else NumVars(Init(stack)) + if Last(stack).IsVar() then 1 else 0
  }

  ghost predicate Ground(t: Trie)
  {
    t.Inner? ==> forall i | 0 <= i < |t.kids| :: !t.kids[i].tok.IsVar() && Ground(t.kids[i].node)
  }

  ghost function Height(t: Trie): nat
    decreases t, 0
  {
    if t.Leaf? then 0 else 1 + HeightFrom(t, 0)
  }

  ghost function HeightFrom(t: Trie, i: nat): (h: nat)
    requires t.Inner? && i <= |t.kids|
    ensures forall j | i <= j < |t.kids| :: Height(t.kids[j].node) <= h
    decreases t, 0, |t.kids| - i
  {
    if i == |t.kids| then 0
    else
      var h := HeightFrom(t, i + 1);
      if Height(t.kids[i].node) > h then Height(t.kids[i].node) else h
  }

  /** tokens are the start of a code with a terms to come. */
  ghost predicate Partial(tokens: seq<Token>, a: int)
    decreases |tokens|
  {
    if tokens == [] then a == 1
    else a + 1 - Last(tokens).arity > 0 && Partial(Init(tokens), a + 1 - Last(tokens).arity)
  }

  lemma {:induction false} PartialIsCode(tokens: seq<Token>, a: nat, w: seq<Token>)
    requires Partial(tokens, a) && IsCode(w, a)
    ensures IsCode(tokens + w, 1)
    decreases |tokens|
  {
    if tokens == [] {
      assert tokens + w == w;
    } else {
      var tok := Last(tokens);
      assert ([tok] + w)[1..] == w;
      PartialIsCode(Init(tokens), a + 1 - tok.arity, [tok] + w);
      assert Init(tokens) + ([tok] + w) == tokens + w;
    }
  }

  // ---------------------------------------------------------------- sound answers

  ghost predicate AreCodes(sub: Substitution)
  {
    forall v | v in sub :: IsCode(sub[v], 1)
  }

  ghost predicate Agrees(sub: Substitution, b: Bindings)
  {
    forall v: nat | v < |b| && b[v].solved :: v in sub && sub[v] == b[v].tokens
  }

  ghost predicate CoversStack(sub: Substitution, stack: seq<Token>)
  {
    forall i | 0 <= i < |stack| && stack[i].IsVar() :: stack[i].id in sub
  }

  ghost predicate Solves(sub: Substitution, stack: seq<Token>, b: Bindings)
  {
    AreCodes(sub) && Agrees(sub, b) && CoversStack(sub, stack)
  }

  /** The path w below t leads to the leaf and is an instance of the query on the stack that
      respects what is bound already. */
  ghost predicate Sound(t: Trie, stack: seq<Token>, b: Bindings, w: seq<Token>, leaf: Trie)
  {
    && leaf.Leaf? && Descend(t, w) == Some(leaf)
    && exists sub: Substitution :: Solves(sub, stack, b) && w == Apply(stack, sub)
  }

  /** The same while variable v is being bound and has got the given tokens so far. */
  ghost predicate SoundFrom(t: Trie, v: nat, tokens: seq<Token>, stack: seq<Token>, b: Bindings, w: seq<Token>,
                            leaf: Trie)
  {
    && leaf.Leaf? && Descend(t, w) == Some(leaf)
    && exists sub: Substitution :: Solves(sub, stack, b) && Continues(sub, v, tokens, stack, w)
  }

  ghost predicate Continues(sub: Substitution, v: nat, tokens: seq<Token>, stack: seq<Token>, w: seq<Token>)
  {
    v in sub && tokens <= sub[v] && w == sub[v][|tokens|..] + Apply(stack, sub)
  }

  /** Solved variables have whole terms without variables. */
  ghost predicate GoodBindings(b: Bindings)
  {
    forall v | 0 <= v < |b| && b[v].solved ::
      && IsCode(b[v].tokens, 1) && |b[v].tokens| <= MAX_VAR_INSTANTIATION_SIZE
      && forall i | 0 <= i < |b[v].tokens| :: !b[v].tokens[i].IsVar()
  }

  ghost predicate SameSolved(b: Bindings, b': Bindings)
  {
    && |b'| == |b|
    && forall v | 0 <= v < |b| :: b'[v].solved == b[v].solved && (b[v].solved ==> b'[v].tokens == b[v].tokens)
  }

  /** Soundness depends on the solved variables only. */
  lemma SoundForSame(t: Trie, stack: seq<Token>, b: Bindings, b': Bindings, w: seq<Token>, leaf: Trie)
    requires SameSolved(b, b') && Sound(t, stack, b', w, leaf)
    ensures Sound(t, stack, b, w, leaf)
  {
    var sub: Substitution :| Solves(sub, stack, b') && w == Apply(stack, sub);
    assert Solves(sub, stack, b);
  }

  lemma SoundFromForSame(t: Trie, v: nat, tokens: seq<Token>, stack: seq<Token>, b: Bindings, b': Bindings,
                         w: seq<Token>, leaf: Trie)
    requires SameSolved(b, b') && SoundFrom(t, v, tokens, stack, b', w, leaf)
    ensures SoundFrom(t, v, tokens, stack, b, w, leaf)
  {
    var sub: Substitution :| Solves(sub, stack, b') && Continues(sub, v, tokens, stack, w);
    assert Solves(sub, stack, b);
  }

  /** With nothing left to match, the leaf itself is the answer. */
  lemma SoundLeaf(t: Trie, b: Bindings)
    requires t.Leaf? && GoodBindings(b)
    ensures Sound(t, [], b, [], t)
  {
    var sub: Substitution := map v | 0 <= v < |b| && b[v].solved :: b[v].tokens;
    assert Solves(sub, [], b) && [] == Apply([], sub);
  }

  lemma SoundConstant(t: Trie, stack: seq<Token>, b: Bindings, child: Trie, w: seq<Token>, leaf: Trie)
    requires stack != [] && !Last(stack).IsVar() && Child(t, Last(stack)) == Some(child)
    requires Sound(child, Init(stack), b, w, leaf)
    ensures Sound(t, stack, b, [Last(stack)] + w, leaf)
  {
    var tok := Last(stack);
    var sub: Substitution :| Solves(sub, Init(stack), b) && w == Apply(Init(stack), sub);
    assert ([tok] + w)[1..] == w;
    assert CoversStack(sub, stack) by {
      assert forall i | 0 <= i < |stack| - 1 :: stack[i] == Init(stack)[i];
    }
    assert Solves(sub, stack, b) && [tok] + w == Apply(stack, sub);
  }

  function Reversed(s: seq<Token>): (r: seq<Token>)
    ensures |r| == |s|
  {
    seq(|s|, i requires 0 <= i < |s| => s[|s| - 1 - i])
  }

  lemma ApplyTop(stack: seq<Token>, sub: Substitution)
    requires stack != []
    ensures Apply(stack, sub) == Replaced(Last(stack), sub) + Apply(Init(stack), sub)
  {
  }

  lemma {:induction false} ApplyPushed(stack: seq<Token>, tokens: seq<Token>, sub: Substitution)
    requires forall i | 0 <= i < |tokens| :: !tokens[i].IsVar()
    ensures Apply(stack + Reversed(tokens), sub) == tokens + Apply(stack, sub)
    decreases |tokens|
  {
    hide Apply;
    if tokens == [] {
      assert stack + Reversed(tokens) == stack;
      assert [] + Apply(stack, sub) == Apply(stack, sub);
    } else {
      var all := stack + Reversed(tokens);
      assert Last(all) == tokens[0] && Init(all) == stack + Reversed(tokens[1..]);
      ApplyTop(all, sub);
      ApplyPushed(stack, tokens[1..], sub);
      assert tokens == [tokens[0]] + tokens[1..];
      assert [tokens[0]] + (tokens[1..] + Apply(stack, sub)) == ([tokens[0]] + tokens[1..]) + Apply(stack, sub);
    }
  }

  /** A solved variable is replaced by its tokens. */
  lemma SoundSolved(t: Trie, stack: seq<Token>, b: Bindings, w: seq<Token>, leaf: Trie)
    requires stack != [] && Last(stack).IsVar() && Last(stack).id < |b| && b[Last(stack).id].solved && GoodBindings(b)
    requires Sound(t, Init(stack) + Reversed(b[Last(stack).id].tokens), b, w, leaf)
    ensures Sound(t, stack, b, w, leaf)
  {
    hide Apply, AreCodes, IsCode, Descend;
    var v := Last(stack).id;
    var pushed := Init(stack) + Reversed(b[v].tokens);
    var sub: Substitution :| Solves(sub, pushed, b) && w == Apply(pushed, sub);
    ApplyPushed(Init(stack), b[v].tokens, sub);
    ApplyTop(stack, sub);
    assert CoversStack(sub, stack) by {
      assert forall i | 0 <= i < |stack| - 1 :: stack[i] == pushed[i];
    }
    assert Solves(sub, stack, b) && w == Apply(stack, sub);
  }

  /** The variable has got a whole term. */
  lemma SoundBound(t: Trie, v: nat, tokens: seq<Token>, stack: seq<Token>, b: Bindings, w: seq<Token>, leaf: Trie)
    requires v < |b| && !b[v].solved && Sound(t, stack, b[v := VarInstantiation(true, tokens)], w, leaf)
    ensures SoundFrom(t, v, tokens, stack, b, w, leaf)
  {
    var b' := b[v := VarInstantiation(true, tokens)];
    var sub: Substitution :| Solves(sub, stack, b') && w == Apply(stack, sub);
    assert b'[v].solved;
    assert Agrees(sub, b) by {
      assert forall u: nat | u < |b| && b[u].solved :: b'[u] == b[u];
    }
    assert sub[v][|tokens|..] == [];
    assert Solves(sub, stack, b) && Continues(sub, v, tokens, stack, w);
  }

  /** One more token for the variable. */
  lemma SoundStep(t: Trie, v: nat, tokens: seq<Token>, tok: Token, stack: seq<Token>, b: Bindings, child: Trie,
                  w: seq<Token>, leaf: Trie)
    requires Child(t, tok) == Some(child) && SoundFrom(child, v, tokens + [tok], stack, b, w, leaf)
    ensures SoundFrom(t, v, tokens, stack, b, [tok] + w, leaf)
  {
    hide Solves, Apply, Child;
    var sub: Substitution :| Solves(sub, stack, b) && Continues(sub, v, tokens + [tok], stack, w);
    assert ([tok] + w)[1..] == w;
    assert sub[v][|tokens|] == (tokens + [tok])[|tokens|];
    assert sub[v][|tokens|..] == [tok] + sub[v][|tokens| + 1..];
    assert tokens <= sub[v];
    assert Continues(sub, v, tokens, stack, [tok] + w);
  }

  /** The unsolved variable on top of the stack is bound from the start. */
  lemma SoundUnsolved(t: Trie, stack: seq<Token>, b: Bindings, w: seq<Token>, leaf: Trie)
    requires stack != [] && Last(stack).IsVar() && SoundFrom(t, Last(stack).id, [], Init(stack), b, w, leaf)
    ensures Sound(t, stack, b, w, leaf)
  {
    var v := Last(stack).id;
    var sub: Substitution :| Solves(sub, Init(stack), b) && Continues(sub, v, [], Init(stack), w);
    assert sub[v][0..] == sub[v];
    assert CoversStack(sub, stack) by {
      assert forall i | 0 <= i < |stack| - 1 :: stack[i] == Init(stack)[i];
    }
    assert Solves(sub, stack, b) && w == Apply(stack, sub);
  }

  // ---------------------------------------------------------------- pushing a term

  lemma {:induction false} IsQueryPushed(stack: seq<Token>, n: nat, tokens: seq<Token>, m: nat)
    requires IsQuery(stack, n) && IsCode(tokens, m) && forall i | 0 <= i < |tokens| :: !tokens[i].IsVar()
    ensures IsQuery(stack + Reversed(tokens), n + m) && NumVars(stack + Reversed(tokens)) == NumVars(stack)
    decreases |tokens|
  {
    if tokens == [] {
      assert stack + Reversed(tokens) == stack;
    } else {
      var all := stack + Reversed(tokens);
      assert Last(all) == tokens[0] && Init(all) == stack + Reversed(tokens[1..]);
      IsQueryPushed(stack, n, tokens[1..], m - 1 + tokens[0].arity);
    }
  }

  // ---------------------------------------------------------------- instances of a query

  /** The query with its variables replaced, first token first. */
  function Instance(query: seq<Token>, sub: Substitution): seq<Token> {
    if query == [] then [] else Replaced(query[0], sub) + Instance(query[1..], sub)
  }

  lemma {:induction false} ApplyReversed(query: seq<Token>, sub: Substitution)
    ensures Apply(Reversed(query), sub) == Instance(query, sub)
    decreases |query|
  {
    if query != [] {
      assert Init(Reversed(query)) == Reversed(query[1..]) && Last(Reversed(query)) == query[0];
      ApplyReversed(query[1..], sub);
    }
  }

  /** w arises from the query by putting one whole term for each variable. */
  ghost predicate IsInstanceOf(query: seq<Token>, w: seq<Token>)
  {
    exists sub: Substitution ::
      && AreCodes(sub)
      && (forall i | 0 <= i < |query| && query[i].IsVar() :: query[i].id in sub)
      && w == Instance(query, sub)
  }

  lemma SoundIsInstance(t: Trie, query: seq<Token>, b: Bindings, w: seq<Token>, leaf: Trie)
    requires Sound(t, Reversed(query), b, w, leaf)
    ensures IsInstanceOf(query, w) && Descend(t, w) == Some(leaf) && leaf.Leaf?
  {
    var sub: Substitution :| Solves(sub, Reversed(query), b) && w == Apply(Reversed(query), sub);
    ApplyReversed(query, sub);
    forall i | 0 <= i < |query| && query[i].IsVar()
      ensures query[i].id in sub
    {
      assert Reversed(query)[|query| - 1 - i] == query[i];
    }
  }

  /** The query read from its first token. */
  ghost predicate IsQueryFrom(query: seq<Token>, n: nat)
  {
    if query == [] then n == 0
    else n > 0 && IsQueryFrom(query[1..], n - 1 + if query[0].IsVar() then 0 else query[0].arity)
  }

  lemma {:induction false} QueryReversed(query: seq<Token>, n: nat)
    requires IsQueryFrom(query, n)
    ensures IsQuery(Reversed(query), n)
    decreases |query|
  {
    if query != [] {
      assert Init(Reversed(query)) == Reversed(query[1..]) && Last(Reversed(query)) == query[0];
      QueryReversed(query[1..], n - 1 + if query[0].IsVar() then 0 else query[0].arity);
    }
  }

  // ---------------------------------------------------------------- the one path that is tried

  ghost predicate Constants(tokens: seq<Token>)
  {
    forall i | 0 <= i < |tokens| :: !tokens[i].IsVar()
  }

  lemma {:induction false} NumVarsPushed(stack: seq<Token>, tokens: seq<Token>)
    requires Constants(tokens)
    ensures NumVars(stack + Reversed(tokens)) == NumVars(stack)
    decreases |tokens|
  {
    if tokens == [] {
      assert stack + Reversed(tokens) == stack;
    } else {
      var all := stack + Reversed(tokens);
      assert Last(all) == tokens[0] && Init(all) == stack + Reversed(tokens[1..]);
      NumVarsPushed(stack, tokens[1..]);
    }
  }

  /** The first a terms below t, along first entries, and the node behind them. */
  ghost function FirstTerms(t: Trie, a: int): (r: (seq<Token>, Trie))
    ensures r.1 == t || r.1 < t
    decreases t
  {
    if a <= 0 || t.Leaf? || t.kids == [] then ([], t)
    else
      var (u, x) := FirstTerms(t.kids[0].node, a - 1 + t.kids[0].tok.arity);
      ([t.kids[0].tok] + u, x)
  }

  ghost function Behind(u: seq<Token>, r: Option<seq<Token>>): Option<seq<Token>> {
    if r.None? then None else Some(u + r.value)
  }

  /** The only path the engine can report: it takes first entries for a variable that is not bound
      yet, and otherwise follows the query. */
  ghost function Guess(t: Trie, stack: seq<Token>, bound: Substitution): Option<seq<Token>>
    decreases NumVars(stack), t, 0
  {
    if stack == [] then Some([])
    else
      var tok := Last(stack);
      if !tok.IsVar() then
        match Child(t, tok)
        case None => None
        case Some(c) => Behind([tok], Guess(c, Init(stack), bound))
      else if tok.id in bound then
        if Constants(bound[tok.id]) then
          NumVarsPushed(Init(stack), bound[tok.id]);
          Guess(t, Init(stack) + Reversed(bound[tok.id]), bound)
        else None
      else GuessFrom(t, 1, tok.id, [], Init(stack), bound)
  }

  /** The same while variable v is being bound and has a terms to come. */
  ghost function GuessFrom(t: Trie, a: int, v: nat, tokens: seq<Token>, stack: seq<Token>,
                           bound: Substitution): Option<seq<Token>>
    decreases NumVars(stack), t, 1
  {
    var (u, x) := FirstTerms(t, a);
    Behind(u, Guess(x, stack, bound[v := tokens + u]))
  }

  /** The terms bound already. */
  ghost function Bound(b: Bindings): Substitution {
    map v: nat | v < |b| && b[v].solved :: b[v].tokens
  }

  lemma BoundSame(b: Bindings, b': Bindings)
    requires SameSolved(b, b')
    ensures Bound(b') == Bound(b)
  {
  }

  lemma BoundOne(b: Bindings, v: nat, tokens: seq<Token>)
    requires v < |b| && !b[v].solved
    ensures Bound(b[v := VarInstantiation(true, tokens)]) == Bound(b)[v := tokens]
  {
    var b' := b[v := VarInstantiation(true, tokens)];
    assert forall u: nat | u < |b| && u != v :: b'[u] == b[u];
  }

  lemma GuessSolved(t: Trie, stack: seq<Token>, b: Bindings)
    requires stack != [] && Last(stack).IsVar() && Last(stack).id < |b| && b[Last(stack).id].solved && GoodBindings(b)
    ensures Guess(t, stack, Bound(b)) == Guess(t, Init(stack) + Reversed(b[Last(stack).id].tokens), Bound(b))
  {
  }

  lemma GuessUnsolved(t: Trie, stack: seq<Token>, b: Bindings)
    requires stack != [] && Last(stack).IsVar() && Last(stack).id < |b| && !b[Last(stack).id].solved
    ensures Guess(t, stack, Bound(b)) == GuessFrom(t, 1, Last(stack).id, [], Init(stack), Bound(b))
  {
  }

  lemma GuessConstant(t: Trie, stack: seq<Token>, bound: Substitution)
    requires stack != [] && !Last(stack).IsVar()
    ensures Guess(t, stack, bound)
         == match Child(t, Last(stack))
            case None => None
            case Some(c) => Behind([Last(stack)], Guess(c, Init(stack), bound))
  {
  }

  lemma GuessComplete(t: Trie, v: nat, tokens: seq<Token>, stack: seq<Token>, b: Bindings)
    requires v < |b| && !b[v].solved
    ensures GuessFrom(t, 0, v, tokens, stack, Bound(b))
            == Guess(t, stack, Bound(b[v := VarInstantiation(true, tokens)]))
  {
    BoundOne(b, v, tokens);
    assert tokens + [] == tokens;
    var r := Guess(t, stack, Bound(b)[v := tokens]);
    assert r.Some? ==> [] + r.value == r.value;
  }

  lemma GuessStep(t: Trie, a: nat, v: nat, tokens: seq<Token>, stack: seq<Token>, bound: Substitution)
    requires t.Inner? && t.kids != [] && a > 0
    ensures var tok, c := t.kids[0].tok, t.kids[0].node;
            GuessFrom(t, a, v, tokens, stack, bound)
                == Behind([tok], GuessFrom(c, a - 1 + tok.arity, v, tokens + [tok], stack, bound))
  {
    var tok, c := t.kids[0].tok, t.kids[0].node;
    var (u, x) := FirstTerms(c, a - 1 + tok.arity);
    assert tokens + ([tok] + u) == (tokens + [tok]) + u;
    var r := Guess(x, stack, bound[v := tokens + ([tok] + u)]);
    assert r.Some? ==> ([tok] + u) + r.value == [tok] + (u + r.value);
  }

  // ---------------------------------------------------------------- how often it is reported

  /** The passes through the loops over the entries on the way through the first a terms. */
  ghost function Passes(t: Trie, a: int): (n: nat)
    ensures n > 0
    decreases t
  {
    if a <= 0 || t.Leaf? || t.kids == [] then 1
    else
      var n := Passes(t.kids[0].node, a - 1 + t.kids[0].tok.arity);
      MorePasses(|t.kids|, n);
      |t.kids| * n
  }

  lemma MorePasses(m: nat, n: nat)
    requires m > 0 && n > 0
    ensures m * n > 0
  {
  }

  /** How often the guessed path is reported. */
  ghost function Count(t: Trie, stack: seq<Token>, bound: Substitution): nat
    decreases NumVars(stack), t, 0
  {
    if stack == [] then 1
    else
      var tok := Last(stack);
      if !tok.IsVar() then
        match Child(t, tok)
        case None => 0
        case Some(c) => Count(c, Init(stack), bound)
      else if tok.id in bound then
        if Constants(bound[tok.id]) then
          NumVarsPushed(Init(stack), bound[tok.id]);
          Count(t, Init(stack) + Reversed(bound[tok.id]), bound)
        else 0
      else CountFrom(t, 1, tok.id, [], Init(stack), bound)
  }

  ghost function CountFrom(t: Trie, a: int, v: nat, tokens: seq<Token>, stack: seq<Token>, bound: Substitution): nat
    decreases NumVars(stack), t, 1
  {
    var (u, x) := FirstTerms(t, a);
    Passes(t, a) * Count(x, stack, bound[v := tokens + u])
  }

  lemma CountSolved(t: Trie, stack: seq<Token>, b: Bindings)
    requires stack != [] && Last(stack).IsVar() && Last(stack).id < |b| && b[Last(stack).id].solved && GoodBindings(b)
    ensures Count(t, stack, Bound(b)) == Count(t, Init(stack) + Reversed(b[Last(stack).id].tokens), Bound(b))
  {
  }

  lemma CountUnsolved(t: Trie, stack: seq<Token>, b: Bindings)
    requires stack != [] && Last(stack).IsVar() && Last(stack).id < |b| && !b[Last(stack).id].solved
    ensures Count(t, stack, Bound(b)) == CountFrom(t, 1, Last(stack).id, [], Init(stack), Bound(b))
  {
  }

  lemma CountConstant(t: Trie, stack: seq<Token>, bound: Substitution)
    requires stack != [] && !Last(stack).IsVar()
    ensures Count(t, stack, bound)
         == match Child(t, Last(stack))
            case None => 0
            case Some(c) => Count(c, Init(stack), bound)
  {
  }

  lemma CountComplete(t: Trie, v: nat, tokens: seq<Token>, stack: seq<Token>, b: Bindings)
    requires v < |b| && !b[v].solved
    ensures CountFrom(t, 0, v, tokens, stack, Bound(b))
            == Count(t, stack, Bound(b[v := VarInstantiation(true, tokens)]))
  {
    BoundOne(b, v, tokens);
    assert tokens + [] == tokens;
  }

  /** Every pass through the loop reports as often as the first entry does. */
  lemma CountStep(t: Trie, a: nat, v: nat, tokens: seq<Token>, stack: seq<Token>, bound: Substitution)
    requires t.Inner? && t.kids != [] && a > 0
    ensures var tok, c := t.kids[0].tok, t.kids[0].node;
            CountFrom(t, a, v, tokens, stack, bound)
                == |t.kids| * CountFrom(c, a - 1 + tok.arity, v, tokens + [tok], stack, bound)
  {
    var tok, c := t.kids[0].tok, t.kids[0].node;
    var (u, x) := FirstTerms(c, a - 1 + tok.arity);
    assert tokens + ([tok] + u) == (tokens + [tok]) + u;
    Associates(|t.kids|, Passes(c, a - 1 + tok.arity), Count(x, stack, bound[v := tokens + ([tok] + u)]));
  }

  lemma Associates(a: nat, b: nat, c: nat)
    ensures (a * b) * c == a * (b * c)
  {
  }

  /** A path is reported at least once if it is guessed, and otherwise never. */
  lemma {:induction false} CountedIffGuessed(t: Trie, stack: seq<Token>, bound: Substitution)
    ensures Count(t, stack, bound) > 0 <==> Guess(t, stack, bound).Some?
    decreases NumVars(stack), t, 0
  {
    if stack != [] {
      var tok := Last(stack);
      if !tok.IsVar() {
        if Child(t, tok).Some? {
          CountedIffGuessed(Child(t, tok).value, Init(stack), bound);
        }
      } else if tok.id in bound {
        if Constants(bound[tok.id]) {
          NumVarsPushed(Init(stack), bound[tok.id]);
          CountedIffGuessed(t, Init(stack) + Reversed(bound[tok.id]), bound);
        }
      } else {
        var (u, x) := FirstTerms(t, 1);
        CountedIffGuessed(x, Init(stack), bound[tok.id as nat := [] + u]);
        if Count(x, Init(stack), bound[tok.id as nat := [] + u]) > 0 {
          MorePasses(Passes(t, 1), Count(x, Init(stack), bound[tok.id as nat := [] + u]));
        }
      }
    }
  }

  /** The number of reports before and after a part of the run that has count of them to make, and
      that stops when their number reaches stopAfter. */
  ghost predicate Tally(stopped: bool, stopAfter: nat, before: nat, after: nat, count: nat)
  {
    if stopped then before < stopAfter == after <= before + count
    else after == before + count && !(before < stopAfter <= after)
  }

  lemma NothingTallied(stopAfter: nat, before: nat, c: nat)
    ensures Tally(false, stopAfter, before, before, 0 * c)
  {
  }

  /** One more pass. */
  lemma TallyPass(stopped: bool, stopAfter: nat, before: nat, mid: nat, after: nat, i: nat, n: nat, c: nat)
    requires i < n && Tally(false, stopAfter, before, mid, i * c) && Tally(stopped, stopAfter, mid, after, c)
    ensures (i + 1) * c == i * c + c
    ensures !stopped ==> Tally(false, stopAfter, before, after, (i + 1) * c)
    ensures stopped ==> Tally(true, stopAfter, before, after, n * c)
  {
    MorePassesCount(i + 1, n, c);
  }

  lemma MorePassesCount(m: nat, n: nat, c: nat)
    requires m <= n
    ensures m * c <= n * c
  {
  }
}
