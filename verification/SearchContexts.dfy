/** Query preparation and the backtracking search over an index. */
module SearchContexts {
  import opened Tokens
  import opened Terms
  import opened Tries
  import opened Walks
  import opened Queries
  import opened SearchSpec
  import opened Accessors
  import opened IndexIterators
  import opened Backtracking
  import opened Answers
  import opened Wrappers

  // ---------------------------------------------------------------- preparation

  /** Two query variables share a number exactly when they have the same name. */
  ghost predicate SameVariable(a: Token, b: Token)
  {
    a.IsVar() && b.IsVar() && a.id == b.id && !a.IsAnonVar()
  }

  /** expr is formula with variables and ranges numbered. */
  ghost predicate Prepared(formula: seq<Token>, expr: seq<Item>)
  {
    && |expr| == |formula|
    && (forall k | 0 <= k < |expr| :: expr[k].meaningId == formula[k].id)
    && (forall k | 0 <= k < |expr| ::
          if formula[k].IsVar() then expr[k].QVAR?
          else if formula[k].IsRange() then expr[k].RANGE?
          else expr[k].CONST? && expr[k].arity == formula[k].arity)
    && Numbered(expr)
    && (forall i, j | 0 <= i < j < |expr| && !expr[i].CONST? && !expr[j].CONST? ::
          expr[i].special == expr[j].special <==> SameVariable(formula[i], formula[j]))
  }

  /** points[s] is the position behind the first occurrence of special s. */
  ghost predicate PointsOf(expr: seq<Item>, points: seq<nat>)
  {
    && |points| == Specials(expr, |expr|)
    && forall s | 0 <= s < |points| :: PointOf(expr, s, points[s])
  }

  ghost predicate PointOf(expr: seq<Item>, s: nat, point: nat)
  {
    && 0 < point <= |expr|
    && !expr[point - 1].CONST? && expr[point - 1].special == s
    && Specials(expr, point - 1) == s && Specials(expr, point) == s + 1
  }

  lemma {:induction false} SpecialsExtend(expr: seq<Item>, item: Item, k: nat)
    requires k <= |expr|
    ensures Specials(expr + [item], k) == Specials(expr, k)
    decreases k
  {
    if k > 0 {
      SpecialsExtend(expr, item, k - 1);
    }
  }

  lemma PrepareStep(formula: seq<Token>, expr: seq<Item>, points: seq<nat>, item: Item, tok: Token)
    requires Prepared(formula, expr) && PointsOf(expr, points)
    requires item.meaningId == tok.id
    requires if tok.IsVar() then item.QVAR?
             else if tok.IsRange() then item.RANGE?
             else item.CONST? && item.arity == tok.arity
    requires item.RANGE? ==> item.special == |points|
    requires item.QVAR? ==> item.special <= |points|
    requires !item.CONST? ==> forall i | 0 <= i < |expr| && !expr[i].CONST? ::
                                expr[i].special == item.special <==> SameVariable(formula[i], tok)
    ensures Prepared(formula + [tok], expr + [item])
    ensures PointsOf(expr + [item], if !item.CONST? && item.special == |points| then points + [|expr| + 1] else points)
  {
    var expr' := expr + [item];
    forall k | 0 <= k <= |expr|
      ensures Specials(expr', k) == Specials(expr, k)
    {
      SpecialsExtend(expr, item, k);
    }
    forall k | 0 <= k < |expr'|
      ensures NumberedAt(expr', k)
    {
      if k < |expr| {
        assert NumberedAt(expr, k);
        assert expr'[k] == expr[k];
      }
    }
    var points' := if !item.CONST? && item.special == |points| then points + [|expr| + 1] else points;
    forall s | 0 <= s < |points'|
      ensures PointOf(expr', s, points'[s])
    {
      if s < |points| {
        assert PointOf(expr, s, points[s]);
        assert expr'[points[s] - 1] == expr[points[s] - 1];
      }
    }
  }

  /** The table of named variables while the query is being numbered. */
  ghost predicate Named(formula: seq<Token>, expr: seq<Item>, table: map<MeaningId, nat>, count: nat)
    requires |expr| == |formula|
  {
    && (forall k | 0 <= k < |expr| && !expr[k].CONST? :: expr[k].special < count)
    && (forall k | 0 <= k < |expr| && formula[k].IsVar() && !formula[k].IsAnonVar() :: NamedAt(formula, expr, table, k))
    && (forall id | id in table :: exists k | 0 <= k < |expr| ::
          formula[k].id == id && formula[k].IsVar() && !formula[k].IsAnonVar() && NamedAt(formula, expr, table, k))
  }

  ghost predicate NamedAt(formula: seq<Token>, expr: seq<Item>, table: map<MeaningId, nat>, k: nat)
    requires k < |expr| == |formula|
  {
    expr[k].QVAR? && formula[k].id in table && expr[k].special == table[formula[k].id]
  }

  lemma NothingPrepared()
    ensures Prepared([], []) && PointsOf([], []) && Named([], [], map[], 0)
  {
  }

  lemma NewSpecial(formula: seq<Token>, expr: seq<Item>, points: seq<nat>, table: map<MeaningId, nat>, item: Item,
                   tok: Token)
    requires Prepared(formula, expr) && PointsOf(expr, points) && Named(formula, expr, table, |points|)
    requires item == if tok.IsVar() then QVAR(tok.id, |points|) else RANGE(tok.id, |points|)
    requires tok.IsVar() || tok.IsRange()
    requires tok.IsVar() && !tok.IsAnonVar() ==> tok.id !in table
    ensures Prepared(formula + [tok], expr + [item]) && PointsOf(expr + [item], points + [|expr| + 1])
    ensures var table' := if tok.IsVar() && !tok.IsAnonVar() then table[tok.id := |points|] else table;
            Named(formula + [tok], expr + [item], table', |points| + 1)
  {
    forall i | 0 <= i < |expr| && !expr[i].CONST?
      ensures expr[i].special != item.special && !SameVariable(formula[i], tok)
    {
      assert formula[i].IsVar() && !formula[i].IsAnonVar() ==> NamedAt(formula, expr, table, i);
    }
    PrepareStep(formula, expr, points, item, tok);
    var table' := if tok.IsVar() && !tok.IsAnonVar() then table[tok.id := |points|] else table;
    NamedStep(formula, expr, table, table', |points|, |points| + 1, item, tok);
  }

  lemma OldVariable(formula: seq<Token>, expr: seq<Item>, points: seq<nat>, table: map<MeaningId, nat>, tok: Token)
    requires Prepared(formula, expr) && PointsOf(expr, points) && Named(formula, expr, table, |points|)
    requires tok.IsVar() && !tok.IsAnonVar() && tok.id in table
    ensures var item := QVAR(tok.id, table[tok.id]);
            && Prepared(formula + [tok], expr + [item]) && PointsOf(expr + [item], points)
            && Named(formula + [tok], expr + [item], table, |points|)
  {
    var item := QVAR(tok.id, table[tok.id]);
    var k :| 0 <= k < |expr| && formula[k].id == tok.id && formula[k].IsVar() && !formula[k].IsAnonVar()
             && NamedAt(formula, expr, table, k);
    forall i | 0 <= i < |expr| && !expr[i].CONST?
      ensures expr[i].special == item.special <==> SameVariable(formula[i], tok)
    {
      if i < k {
        assert expr[i].special == expr[k].special <==> SameVariable(formula[i], formula[k]);
      } else if k < i {
        assert expr[k].special == expr[i].special <==> SameVariable(formula[k], formula[i]);
      }
    }
    PrepareStep(formula, expr, points, item, tok);
    NamedStep(formula, expr, table, table, |points|, |points|, item, tok);
  }

  lemma NewConstant(formula: seq<Token>, expr: seq<Item>, points: seq<nat>, table: map<MeaningId, nat>, tok: Token)
    requires Prepared(formula, expr) && PointsOf(expr, points) && Named(formula, expr, table, |points|)
    requires !tok.IsVar() && !tok.IsRange()
    ensures var item := CONST(tok.id, tok.arity);
            && Prepared(formula + [tok], expr + [item]) && PointsOf(expr + [item], points)
            && Named(formula + [tok], expr + [item], table, |points|)
  {
    PrepareStep(formula, expr, points, CONST(tok.id, tok.arity), tok);
    NamedStep(formula, expr, table, table, |points|, |points|, CONST(tok.id, tok.arity), tok);
  }

  lemma NamedStep(formula: seq<Token>, expr: seq<Item>, table: map<MeaningId, nat>, table': map<MeaningId, nat>,
                  count: nat, count': nat, item: Item, tok: Token)
    requires |expr| == |formula| && Named(formula, expr, table, count) && count <= count'
    requires forall id | id in table :: id in table' && table'[id] == table[id]
    requires forall id | id in table' && id !in table :: id == tok.id && tok.IsVar() && !tok.IsAnonVar()
    requires !item.CONST? ==> item.special < count'
    requires tok.IsVar() && !tok.IsAnonVar() ==> item.QVAR? && tok.id in table' && item.special == table'[tok.id]
    ensures Named(formula + [tok], expr + [item], table', count')
  {
    var f', e' := formula + [tok], expr + [item];
    forall k | 0 <= k < |e'| && f'[k].IsVar() && !f'[k].IsAnonVar()
      ensures NamedAt(f', e', table', k)
    {
      if k < |expr| {
        assert NamedAt(formula, expr, table, k);
      }
    }
    forall id | id in table'
      ensures exists k | 0 <= k < |e'| ::
                f'[k].id == id && f'[k].IsVar() && !f'[k].IsAnonVar() && NamedAt(f', e', table', k)
    {
      if id in table {
        var k :| 0 <= k < |expr| && formula[k].id == id && formula[k].IsVar() && !formula[k].IsAnonVar()
                 && NamedAt(formula, expr, table, k);
        assert f'[k] == formula[k] && NamedAt(f', e', table', k);
      } else {
        assert f'[|expr|] == tok && NamedAt(f', e', table', |expr|);
      }
    }
  }

  /** A variable that occurs again was first solved as a variable. */
  ghost predicate Kinds(expr: seq<Item>, points: seq<nat>)
  {
    forall k | 0 <= k < |expr| && !expr[k].CONST? ::
      && expr[k].special < |points|
      && 0 < points[expr[k].special] <= |expr|
      && (expr[k].QVAR? ==> expr[points[expr[k].special] - 1].QVAR?)
  }

  lemma PreparedKinds(formula: seq<Token>, expr: seq<Item>, points: seq<nat>)
    requires Prepared(formula, expr) && PointsOf(expr, points)
    ensures Kinds(expr, points) && Numbered(expr)
  {
    forall k | 0 <= k < |expr| && !expr[k].CONST?
      ensures expr[k].special < |points| && 0 < points[expr[k].special] <= |expr|
      ensures expr[k].QVAR? ==> expr[points[expr[k].special] - 1].QVAR?
    {
      assert NumberedAt(expr, k);
      SpecialsMonotone(expr, k + 1, |expr|);
      assert PointOf(expr, expr[k].special, points[expr[k].special]);
    }
  }

  // ---------------------------------------------------------------- the state of the search

  /** The turns that the choices not tried yet will lead to. */
  ghost function Back(q: Query, points: seq<nat>, bind: Substitution, others: seq<seq<Spot>>): seq<Turn>
    requires |bind| == |others| <= |points|
    requires forall s | 0 <= s < |points| :: points[s] <= |q.expr|
    decreases |bind|
  {
    if bind == [] then []
    else RunEach(q, Last(others), points[|bind| - 1], Init(bind)) + Back(q, points, Init(bind), Init(others))
  }

  /** The choices fit the query: bindings are codes, and what was not tried leads to nodes of
      the arity count the query expects there. */
  ghost predicate Held(q: Query, points: seq<nat>, bind: Substitution, others: seq<seq<Spot>>)
  {
    && |bind| == |others| <= |points|
    && (forall s | 0 <= s < |points| :: PointOf(q.expr, s, points[s]))
    && (forall s | 0 <= s < |bind| :: IsCode(bind[s], 1))
    && (forall s | 0 <= s < |others| :: Choices(q, points[s], others[s]))
  }

  ghost predicate Choices(q: Query, point: nat, alts: seq<Spot>)
  {
    && point <= |q.expr| && NeedAt(q.expr, point) >= 0
    && forall a | a in alts :: IsCode(a.path, 1) && WellFormed(a.node, NeedAt(q.expr, point))
  }

  /** The search stands at node, in front of query token k. */
  ghost predicate At(ix: Index, q: Query, points: seq<nat>, node: Node, k: nat, bind: Substitution,
                     others: seq<seq<Spot>>)
  {
    && Held(q, points, bind, others)
    && k <= |q.expr| && |bind| == Specials(q.expr, k)
    && IsNode(ix, node) && NeedAt(q.expr, k) >= 0 && WellFormed(View(ix, node), NeedAt(q.expr, k))
  }

  /** The search goes on from next behind the last special, or, without next, with what is left. */
  ghost predicate Resumed(ix: Index, q: Query, points: seq<nat>, bind: Substitution, others: seq<seq<Spot>>,
                          next: Option<Node>, bind': Substitution, others': seq<seq<Spot>>)
    requires Held(q, points, bind, others) && Held(q, points, bind', others')
  {
    if next.None? then Back(q, points, bind', others') == Back(q, points, bind, others)
    else
      && bind' != []
      && At(ix, q, points, next.value, points[|bind'| - 1], bind', others')
      && Back(q, points, bind, others) == Pending(ix, q, points, next.value, points[|bind'| - 1], bind', others')
  }

  lemma ResumedAgain(ix: Index, q: Query, points: seq<nat>, bind: Substitution, others: seq<seq<Spot>>,
                     bind1: Substitution, others1: seq<seq<Spot>>,
                     next: Option<Node>, bind2: Substitution, others2: seq<seq<Spot>>)
    requires Held(q, points, bind, others) && Held(q, points, bind1, others1) && Held(q, points, bind2, others2)
    requires Resumed(ix, q, points, bind, others, None, bind1, others1)
    requires Resumed(ix, q, points, bind1, others1, next, bind2, others2)
    ensures Resumed(ix, q, points, bind, others, next, bind2, others2)
  {
    hide At, Pending, Back, Choices, IsCode, PointOf;
  }

  lemma NotResumed(ix: Index, q: Query, points: seq<nat>, bind: Substitution, others: seq<seq<Spot>>)
    requires Held(q, points, bind, others)
    ensures Resumed(ix, q, points, bind, others, None, bind, others)
  {
  }

  /** All turns to come from such a state. */
  ghost function Pending(ix: Index, q: Query, points: seq<nat>, node: Node, k: nat, bind: Substitution,
                         others: seq<seq<Spot>>): seq<Turn>
    requires At(ix, q, points, node, k, bind, others)
  {
    Run(q, View(ix, node), k, bind) + Back(q, points, bind, others)
  }

  // ---------------------------------------------------------------- one turn

  lemma NeedStep(q: Query, k: nat)
    requires WellFormedQuery(q) && k < |q.expr|
    ensures NeedAt(q.expr, k) > 0
    ensures NeedAt(q.expr, k + 1) == NeedAt(q.expr, k) - 1 + if q.expr[k].CONST? then q.expr[k].arity else 0
    ensures NeedAt(q.expr, k + 1) >= 0
  {
    ShapedAt(q.expr, k);
    ShapedAt(q.expr, k + 1);
  }

  /** A constant leads to one child or nowhere. */
  lemma ConstTurn(q: Query, t: Trie, k: nat, bind: Substitution)
    requires WellFormedQuery(q) && k < |q.expr| && q.expr[k].CONST?
    requires NeedAt(q.expr, k) >= 0 && WellFormed(t, NeedAt(q.expr, k))
    ensures t.Inner? && Sorted(t.kids) && NeedAt(q.expr, k + 1) >= 0
    ensures Specials(q.expr, k + 1) == Specials(q.expr, k)
    ensures var c := Child(t, Token(q.expr[k].meaningId, q.expr[k].arity));
            && Run(q, t, k, bind) == [Step] + (if c.None? then [] else Run(q, c.value, k + 1, bind))
            && (c.Some? ==> WellFormed(c.value, NeedAt(q.expr, k + 1)))
  {
    hide WellFormed, Child;
    NeedStep(q, k);
    ChildFits(t, Token(q.expr[k].meaningId, q.expr[k].arity), NeedAt(q.expr, k));
  }

  lemma ChildFits(t: Trie, tok: Token, n: nat)
    requires n > 0 && WellFormed(t, n)
    ensures t.Inner? && Sorted(t.kids)
    ensures Child(t, tok).Some? ==> WellFormed(Child(t, tok).value, n - 1 + tok.arity)
  {
  }

  /** A variable solved before leads along its binding or nowhere. */
  lemma BoundTurn(q: Query, t: Trie, k: nat, bind: Substitution)
    requires WellFormedQuery(q) && k < |q.expr| && q.expr[k].QVAR? && q.expr[k].special < |bind| == Specials(q.expr, k)
    requires NeedAt(q.expr, k) >= 0 && WellFormed(t, NeedAt(q.expr, k))
    requires IsCode(bind[q.expr[k].special], 1)
    ensures NeedAt(q.expr, k) > 0 && NeedAt(q.expr, k + 1) >= 0
    ensures Specials(q.expr, k + 1) == Specials(q.expr, k)
    ensures var c := Descend(t, bind[q.expr[k].special]);
            && Run(q, t, k, bind) == [Step] + (if c.None? then [] else Run(q, c.value, k + 1, bind))
            && (c.Some? ==> WellFormed(c.value, NeedAt(q.expr, k + 1)))
  {
    hide WellFormed, IsCode;
    NeedStep(q, k);
    if Descend(t, bind[q.expr[k].special]).Some? {
      SpotReached(t, bind[q.expr[k].special], NeedAt(q.expr, k));
    }
  }

  /** A special met for the first time leads to each of its alternatives. */
  lemma FreshTurn(q: Query, points: seq<nat>, t: Trie, k: nat, bind: Substitution, others: seq<seq<Spot>>)
    requires WellFormedQuery(q) && k < |q.expr| && !q.expr[k].CONST?
             && q.expr[k].special == |bind| == Specials(q.expr, k)
    requires NeedAt(q.expr, k) >= 0 && WellFormed(t, NeedAt(q.expr, k))
    requires Held(q, points, bind, others) && |bind| < |points|
    ensures NeedAt(q.expr, k) > 0 && points[|bind|] == k + 1
    ensures t.Inner? && t.kids != [] && Sorted(t.kids)
    ensures Run(q, t, k, bind) == [Step] + RunEach(q, Alternatives(q, t, k), k + 1, bind)
    ensures Choices(q, k + 1, Alternatives(q, t, k))
  {
    NeedStep(q, k);
    assert PointOf(q.expr, |bind|, points[|bind|]);
    FirstOccurrence(q.expr, k, points[|bind|]);
    AlternativesFit(q, t, k);
  }

  lemma SpecialsStep(expr: seq<Item>, k: nat)
    requires k < |expr| && !expr[k].CONST? && expr[k].special >= Specials(expr, k)
    ensures Specials(expr, k + 1) == Specials(expr, k) + 1
  {
  }

  lemma FirstOccurrence(expr: seq<Item>, k: nat, point: nat)
    requires k < |expr| && !expr[k].CONST? && expr[k].special == Specials(expr, k)
    requires PointOf(expr, expr[k].special, point)
    ensures point == k + 1
  {
    hide Specials;
    SpecialsStep(expr, k);
    if point - 1 < k {
      SpecialsMonotone(expr, point, k);
    } else if k < point - 1 {
      SpecialsMonotone(expr, k + 1, point - 1);
    }
  }

  lemma NextPoint(expr: seq<Item>, points: seq<nat>, k: nat)
    requires Numbered(expr) && PointsOf(expr, points)
    requires k < |expr| && !expr[k].CONST? && expr[k].special >= Specials(expr, k)
    ensures Specials(expr, k + 1) == Specials(expr, k) + 1 <= |points|
    ensures points[Specials(expr, k)] == k + 1
  {
    assert NumberedAt(expr, k);
    SpecialsMonotone(expr, k + 1, |expr|);
    assert PointOf(expr, Specials(expr, k), points[Specials(expr, k)]);
    FirstOccurrence(expr, k, points[Specials(expr, k)]);
  }

  lemma AlternativesFit(q: Query, t: Trie, k: nat)
    requires WellFormedQuery(q) && k < |q.expr| && !q.expr[k].CONST?
    requires NeedAt(q.expr, k) > 0 && NeedAt(q.expr, k + 1) == NeedAt(q.expr, k) - 1
    requires WellFormed(t, NeedAt(q.expr, k))
    ensures Choices(q, k + 1, Alternatives(q, t, k))
  {
    var n := NeedAt(q.expr, k);
    if q.expr[k].QVAR? {
      SpotsSound([], t, 1, n);
      forall a | a in Alternatives(q, t, k)
        ensures IsCode(a.path, 1) && WellFormed(a.node, n - 1)
      {
        assert SpotOf([], t, 1, n, a) && a.path[0..] == a.path;
      }
    } else {
      InRangeFits(q.numbers, q.bounds[q.expr[k].meaningId], t, 0, n);
    }
  }

  lemma {:induction false} InRangeFits(numbers: map<MeaningId, real>, limits: Interval, t: Trie, i: nat, n: nat)
    requires t.Inner? && i <= |t.kids| && n > 0 && WellFormed(t, n)
    ensures forall a | a in InRange(numbers, limits, t, i) :: IsCode(a.path, 1) && WellFormed(a.node, n - 1)
    decreases |t.kids| - i
  {
    if i < |t.kids| {
      InRangeFits(numbers, limits, t, i + 1, n);
      assert [t.kids[i].tok][1..] == [];
    }
  }

  /** Taking the first of the choices leaves the rest of them for later. */
  lemma TakeChoice(q: Query, points: seq<nat>, bind: Substitution, others: seq<seq<Spot>>, path: seq<Token>, t: Trie,
                   rest: seq<Spot>)
    requires Held(q, points, bind, others) && |bind| < |points|
    requires Choices(q, points[|bind|], [Spot(path, t)] + rest)
    ensures Held(q, points, bind + [path], others + [rest])
    ensures NeedAt(q.expr, points[|bind|]) >= 0 && WellFormed(t, NeedAt(q.expr, points[|bind|]))
    ensures Specials(q.expr, points[|bind|]) == |bind| + 1
    ensures RunEach(q, [Spot(path, t)] + rest, points[|bind|], bind) + Back(q, points, bind, others)
         == Run(q, t, points[|bind|], bind + [path]) + Back(q, points, bind + [path], others + [rest])
  {
    TakeChoiceHeld(q, points, bind, others, path, t, rest);
    TakeChoiceTurns(q, points, bind, others, path, t, rest);
  }

  lemma TakeChoiceHeld(q: Query, points: seq<nat>, bind: Substitution, others: seq<seq<Spot>>, path: seq<Token>,
                       t: Trie, rest: seq<Spot>)
    requires Held(q, points, bind, others) && |bind| < |points|
    requires Choices(q, points[|bind|], [Spot(path, t)] + rest)
    ensures Held(q, points, bind + [path], others + [rest])
    ensures NeedAt(q.expr, points[|bind|]) >= 0 && WellFormed(t, NeedAt(q.expr, points[|bind|]))
    ensures Specials(q.expr, points[|bind|]) == |bind| + 1
  {
    hide NeedAt, WellFormed, IsCode, Specials;
    var first := Spot(path, t);
    assert PointOf(q.expr, |bind|, points[|bind|]);
    assert first in [first] + rest;
    assert Choices(q, points[|bind|], rest) by {
      assert forall a | a in rest :: a in [first] + rest;
    }
  }

  lemma TakeChoiceTurns(q: Query, points: seq<nat>, bind: Substitution, others: seq<seq<Spot>>, path: seq<Token>,
                        t: Trie, rest: seq<Spot>)
    requires |bind| == |others| < |points|
    requires forall s | 0 <= s < |points| :: points[s] <= |q.expr|
    ensures RunEach(q, [Spot(path, t)] + rest, points[|bind|], bind) + Back(q, points, bind, others)
         == Run(q, t, points[|bind|], bind + [path]) + Back(q, points, bind + [path], others + [rest])
  {
    hide Run;
    var point, first := points[|bind|], Spot(path, t);
    assert ([first] + rest)[1..] == rest;
    assert Init(bind + [path]) == bind && Last(others + [rest]) == rest && Init(others + [rest]) == others;
    Regroup(Run(q, t, point, bind + [path]), RunEach(q, rest, point, bind), [], [], Back(q, points, bind, others));
  }

  /** A special without further choices is given up. */
  lemma DropSpecial(q: Query, points: seq<nat>, bind: Substitution, others: seq<seq<Spot>>)
    requires Held(q, points, bind, others) && bind != [] && Last(others) == []
    ensures Held(q, points, Init(bind), Init(others))
    ensures Back(q, points, bind, others) == Back(q, points, Init(bind), Init(others))
  {
  }

  /** The last special is open again, with the choices not tried yet. */
  lemma ReopenSpecial(q: Query, points: seq<nat>, bind: Substitution, others: seq<seq<Spot>>)
    requires Held(q, points, bind, others) && bind != []
    ensures Held(q, points, Init(bind), Init(others)) && Choices(q, points[|bind| - 1], Last(others))
    ensures Back(q, points, bind, others)
         == RunEach(q, Last(others), points[|bind| - 1], Init(bind)) + Back(q, points, Init(bind), Init(others))
  {
  }

  /** Behind the last query token the node is a leaf. */
  lemma LeafTurn(q: Query, t: Trie, bind: Substitution)
    requires WellFormedQuery(q) && NeedAt(q.expr, |q.expr|) >= 0 && WellFormed(t, NeedAt(q.expr, |q.expr|))
    ensures t.Leaf? && Run(q, t, |q.expr|, bind) == [Visit(t)]
  {
    ShapedAt(q.expr, |q.expr|);
  }

  // ---------------------------------------------------------------- the search

  ghost function Objects(table: seq<BacktrackCtxt>): set<object> {
    set i, o: object | 0 <= i < |table| && o in table[i].Footprint() :: o
  }

  /** One context for each special, of the right kind, none sharing objects with another. */
  ghost predicate IsTable(q: Query, points: seq<nat>, table: seq<BacktrackCtxt>)
  {
    && |table| == |points|
    && (forall s | 0 <= s < |table| :: Suits(q, points[s], table[s]))
    && forall i, j | 0 <= i < j < |table| :: table[i].Footprint() !! table[j].Footprint()
  }

  ghost predicate Suits(q: Query, point: nat, c: BacktrackCtxt)
  {
    && 0 < point <= |q.expr|
    && match q.expr[point - 1]
       case CONST(_, _) => false
       case QVAR(_, _) => c.Qvar?
       case RANGE(id, _) => c.Range? && id in q.bounds && c.r.limits == q.bounds[id] && c.r.numbers == q.numbers
  }

  /** The table while it is being filled: nothing is solved yet. */
  ghost predicate PartTable(q: Query, points: seq<nat>, table: seq<BacktrackCtxt>)
    reads Objects(table)
  {
    && |table| <= |points|
    && (forall s | 0 <= s < |table| :: Suits(q, points[s], table[s]) && table[s].Unsolved())
    && forall i, j | 0 <= i < j < |table| :: table[i].Footprint() !! table[j].Footprint()
  }

  /** The specials bound so far are solved, the others are not, and their walks have not begun. */
  ghost predicate InState(ix: Index, table: seq<BacktrackCtxt>, bind: Substitution, others: seq<seq<Spot>>)
    reads Objects(table)
  {
    && |bind| == |others| <= |table|
    && (forall s | 0 <= s < |bind| :: table[s].Solved(ix, bind[s], others[s]))
    && forall s | |bind| <= s < |table| :: table[s].Unsolved()
  }

  /** One turn of the search at a query token: either the search goes on from next, or only the
      choices not tried yet remain. */
  ghost predicate IsTurn(ix: Index, q: Query, points: seq<nat>, node: Node, k: nat, bind: Substitution,
                         others: seq<seq<Spot>>, next: Option<Node>, bind': Substitution, others': seq<seq<Spot>>)
    requires At(ix, q, points, node, k, bind, others) && k < |q.expr|
  {
    if next.Some? then
      && At(ix, q, points, next.value, k + 1, bind', others')
      && Pending(ix, q, points, node, k, bind, others)
          == [Step] + Pending(ix, q, points, next.value, k + 1, bind', others')
    else
      && bind' == bind && others' == others
      && Pending(ix, q, points, node, k, bind, others) == [Step] + Back(q, points, bind, others)
  }

  lemma InStateLengths(ix: Index, table: seq<BacktrackCtxt>, bind: Substitution, others: seq<seq<Spot>>)
    requires InState(ix, table, bind, others)
    ensures |bind| == |others| <= |table|
  {
  }

  ghost predicate AllLeaves(ts: seq<Trie>)
  {
    forall t | t in ts :: t.Leaf?
  }

  /** What a turn adds to the result. */
  ghost predicate Counts(o: Options, data: FormulaData, page: Page, turn: Turn, result: Answset, result': Answset)
  {
    match turn
    case Step => result' == result
    case Visit(t) => t.Leaf? && result' == Account(o, data, page, t, result)
  }

  lemma CollectTurn(o: Options, data: FormulaData, page: Page, turn: Turn, rest: seq<Turn>, result: Answset,
                    result': Answset)
    requires Counts(o, data, page, turn, result, result') && result.total < page.maxTotal
    requires AllLeaves(Visited([turn] + rest))
    ensures AllLeaves(Visited(rest))
    ensures Collect(o, data, page, Visited([turn] + rest), result) == Collect(o, data, page, Visited(rest), result')
  {
    hide Account;
    var all := [turn] + rest;
    assert all[1..] == rest;
    if turn.Visit? {
      assert Visited(all) == [turn.leaf] + Visited(rest) && Visited(all)[1..] == Visited(rest);
      assert forall t | t in Visited(rest) :: t in Visited(all);
    }
  }

  lemma CollectEnd(o: Options, data: FormulaData, page: Page, rest: seq<Turn>, result: Answset)
    requires AllLeaves(Visited(rest)) && (rest == [] || result.total >= page.maxTotal)
    ensures Collect(o, data, page, Visited(rest), result) == result
  {
  }

  lemma StartSearch(ix: Index, q: Query, points: seq<nat>)
    requires WellFormedQuery(q) && PointsOf(q.expr, points)
    requires IsIndex(ix) && WellFormed(View(ix, GetRootNode(ix)), 1)
    ensures At(ix, q, points, GetRootNode(ix), 0, [], [])
    ensures Visited(Pending(ix, q, points, GetRootNode(ix), 0, [], [])) == Matches(q, View(ix, GetRootNode(ix)))
    ensures AllLeaves(Matches(q, View(ix, GetRootNode(ix))))
  {
    var run := Run(q, View(ix, GetRootNode(ix)), 0, []);
    assert run + Back(q, points, [], []) == run;
    RunVisitsMatches(q, View(ix, GetRootNode(ix)));
  }

  lemma TurnSameBindings(ix: Index, q: Query, points: seq<nat>, node: Node, k: nat, bind: Substitution,
                         others: seq<seq<Spot>>, next: Option<Node>)
    requires At(ix, q, points, node, k, bind, others) && k < |q.expr|
    requires NeedAt(q.expr, k + 1) >= 0 && Specials(q.expr, k + 1) == Specials(q.expr, k)
    requires next.Some? ==> IsNode(ix, next.value) && WellFormed(View(ix, next.value), NeedAt(q.expr, k + 1))
    requires Run(q, View(ix, node), k, bind) == [Step] + if next.None? then []
               else Run(q, View(ix, next.value), k + 1, bind)
    ensures IsTurn(ix, q, points, node, k, bind, others, next, bind, others)
  {
    hide View, IsNode, WellFormed, Run, Back, Specials, NeedAt;
    var back := Back(q, points, bind, others);
    if next.Some? {
      Regroup([Step], Run(q, View(ix, next.value), k + 1, bind), [], [], back);
    } else {
      assert [Step] + [] == [Step];
    }
  }

  lemma TurnFresh(ix: Index, q: Query, points: seq<nat>, node: Node, k: nat, bind: Substitution, others: seq<seq<Spot>>,
                  next: Node, path: seq<Token>, rest: seq<Spot>)
    requires At(ix, q, points, node, k, bind, others) && k < |q.expr| && !q.expr[k].CONST?
    requires |bind| < |points| && points[|bind|] == k + 1
    requires IsNode(ix, next) && Alternatives(q, View(ix, node), k) == [Spot(path, View(ix, next))] + rest
    requires Choices(q, k + 1, Alternatives(q, View(ix, node), k))
    requires Run(q, View(ix, node), k, bind) == [Step] + RunEach(q, Alternatives(q, View(ix, node), k), k + 1, bind)
    ensures IsTurn(ix, q, points, node, k, bind, others, Some(next), bind + [path], others + [rest])
  {
    hide View, IsNode, WellFormed, Run, RunEach, Back, Specials, NeedAt, Alternatives, Choices;
    var alts := Alternatives(q, View(ix, node), k);
    TakeChoice(q, points, bind, others, path, View(ix, next), rest);
    Regroup([Step], RunEach(q, alts, k + 1, bind), [], [], Back(q, points, bind, others));
  }

  lemma TurnFreshNone(ix: Index, q: Query, points: seq<nat>, node: Node, k: nat, bind: Substitution,
                      others: seq<seq<Spot>>)
    requires At(ix, q, points, node, k, bind, others) && k < |q.expr| && !q.expr[k].CONST?
    requires Alternatives(q, View(ix, node), k) == []
    requires Run(q, View(ix, node), k, bind) == [Step] + RunEach(q, Alternatives(q, View(ix, node), k), k + 1, bind)
    ensures IsTurn(ix, q, points, node, k, bind, others, None, bind, others)
  {
  }

  /** The flag of a variable's context tells whether the variable is bound; a special that is not
      bound is the next one. */
  lemma IsSolvedIffBound(q: Query, ix: Index, points: seq<nat>, table: seq<BacktrackCtxt>, k: nat, node: Node,
                         bind: Substitution, others: seq<seq<Spot>>)
    requires Numbered(q.expr) && Kinds(q.expr, points)
    requires IsTable(q, points, table) && InState(ix, table, bind, others)
    requires At(ix, q, points, node, k, bind, others) && k < |q.expr| && !q.expr[k].CONST?
    ensures var id := q.expr[k].special;
            && id < |table|
            && (q.expr[k].QVAR? ==> table[id].Qvar?)
            && (table[id].IsSolved() <==> id < |bind|)
            && (id < |bind| ==> q.expr[k].QVAR? && table[id].q.Solved(ix, bind[id], others[id]))
            && id <= |bind|
  {
    var id := q.expr[k].special;
    assert NumberedAt(q.expr, k);
    assert Suits(q, points[id], table[id]);
    if id < |bind| {
      assert table[id].Solved(ix, bind[id], others[id]);
    } else {
      assert table[id].Unsolved();
    }
  }

  lemma FullTable(q: Query, ix: Index, points: seq<nat>, table: seq<BacktrackCtxt>)
    requires PartTable(q, points, table) && |table| == |points|
    ensures IsTable(q, points, table) && InState(ix, table, [], [])
  {
  }

  lemma EmptyTable(q: Query, points: seq<nat>)
    ensures PartTable(q, points, []) && Objects([]) == {} && Specials(q.expr, 0) == 0
  {
  }

  lemma AllPoints(context: SearchContext)
    requires context.Valid()
    ensures |context.backtrackPoints| == Specials(context.expr, |context.expr|)
  {
  }

  class SearchContext {
    const expr: seq<Item>
    const backtrackPoints: seq<nat>
    const specialCount: nat
    const options: Options
    const rangeBounds: map<MeaningId, Interval>
    const numbers: map<MeaningId, real>

    ghost predicate Valid() {
      && specialCount == |backtrackPoints|
      && PointsOf(expr, backtrackPoints)
      && Numbered(expr)
      && Kinds(expr, backtrackPoints)
    }

    ghost function TheQuery(): Query {
      Query(expr, rangeBounds, numbers)
    }

    constructor (formula: seq<Token>, options: Options, rangeBounds: map<MeaningId, Interval>,
                 numbers: map<MeaningId, real>)
      ensures Valid() && Prepared(formula, expr)
      ensures this.options == options && this.rangeBounds == rangeBounds && this.numbers == numbers
    {
      hide Prepared, PointsOf, Named, Kinds, Numbered;
      this.options, this.rangeBounds, this.numbers := options, rangeBounds, numbers;
      NothingPrepared();
      var indexedQvars: map<MeaningId, nat> := map[];
      var tokenCount, count := 0, 0;
      var items: seq<Item>, points: seq<nat> := [], [];
      while tokenCount < |formula|
        invariant tokenCount <= |formula| && |items| == tokenCount && count == |points|
        invariant Prepared(formula[..tokenCount], items) && PointsOf(items, points)
        invariant Named(formula[..tokenCount], items, indexedQvars, count)
      {
        var tok := formula[tokenCount];
        assert formula[..tokenCount + 1] == formula[..tokenCount] + [tok];
        if tok.IsVar() {
          if tok.IsAnonVar() {
            NewSpecial(formula[..tokenCount], items, points, indexedQvars, QVAR(tok.id, count), tok);
            items := items + [QVAR(tok.id, count)];
            points := points + [tokenCount + 1];
            count := count + 1;
          } else if tok.id !in indexedQvars {
            NewSpecial(formula[..tokenCount], items, points, indexedQvars, QVAR(tok.id, count), tok);
            indexedQvars := indexedQvars[tok.id := count];
            items := items + [QVAR(tok.id, count)];
            points := points + [tokenCount + 1];
            count := count + 1;
          } else {
            OldVariable(formula[..tokenCount], items, points, indexedQvars, tok);
            items := items + [QVAR(tok.id, indexedQvars[tok.id])];
          }
        } else if tok.IsRange() {
          NewSpecial(formula[..tokenCount], items, points, indexedQvars, RANGE(tok.id, count), tok);
          items := items + [RANGE(tok.id, count)];
          points := points + [tokenCount + 1];
          count := count + 1;
        } else {
          NewConstant(formula[..tokenCount], items, points, indexedQvars, tok);
          items := items + [CONST(tok.id, tok.arity)];
        }
        tokenCount := tokenCount + 1;
      }
      assert formula[..tokenCount] == formula;
      PreparedKinds(formula, items, points);
      expr, backtrackPoints, specialCount := items, points, count;
    }

    /** One context for each special, created at its first occurrence. */
    method SetupTable(ix: Index) returns (table: seq<BacktrackCtxt>)
      requires Valid() && WellFormedQuery(TheQuery())
      ensures IsTable(TheQuery(), backtrackPoints, table) && InState(ix, table, [], [])
      ensures fresh(Objects(table))
    {
      hide Valid, WellFormedQuery, PartTable, Specials, IsTable, InState, Objects;
      table := [];
      EmptyTable(TheQuery(), backtrackPoints);
      AllPoints(this);
      for k := 0 to |expr|
        invariant |table| == Specials(expr, k)
        invariant PartTable(TheQuery(), backtrackPoints, table)
        invariant fresh(Objects(table))
      {
        table := SetupToken(ix, k, table);
      }
      FullTable(TheQuery(), ix, backtrackPoints, table);
    }

    method SetupToken(ix: Index, k: nat, table: seq<BacktrackCtxt>) returns (table': seq<BacktrackCtxt>)
      requires Valid() && WellFormedQuery(TheQuery()) && k < |expr|
      requires PartTable(TheQuery(), backtrackPoints, table) && |table| == Specials(expr, k)
      ensures PartTable(TheQuery(), backtrackPoints, table') && |table'| == Specials(expr, k + 1)
      ensures fresh(Objects(table') - Objects(table))
    {
      hide PartTable, Objects;
      if !expr[k].CONST? && expr[k].special >= |table| {
        NextPoint(expr, backtrackPoints, k);
        table' := AddContext(ix, k, table);
      } else {
        table' := table;
      }
    }

    method AddContext(ix: Index, k: nat, table: seq<BacktrackCtxt>) returns (table': seq<BacktrackCtxt>)
      requires PartTable(TheQuery(), backtrackPoints, table) && |table| < |backtrackPoints|
      requires k < |expr| && backtrackPoints[|table|] == k + 1
      requires !expr[k].CONST? && (expr[k].RANGE? ==> expr[k].meaningId in rangeBounds)
      ensures PartTable(TheQuery(), backtrackPoints, table') && |table'| == |table| + 1
      ensures fresh(Objects(table') - Objects(table))
    {
      var c := NewContext(ix, k);
      table' := table + [c];
      forall i, j | 0 <= i < j < |table'|
        ensures table'[i].Footprint() !! table'[j].Footprint()
      {
        if j == |table| {
          assert table[i].Unsolved();
        }
      }
    }

    /** Evaluates one query token: goes ahead to the next node, or finds that there is none. */
    method Evaluate(ix: Index, table: seq<BacktrackCtxt>, k: nat, node: Node, lastSolved: int,
                    ghost bind: Substitution, ghost others: seq<seq<Spot>>)
        returns (next: Option<Node>, solved: int, ghost bind': Substitution, ghost others': seq<seq<Spot>>)
      requires Valid() && WellFormedQuery(TheQuery()) && k < |expr|
      requires IsTable(TheQuery(), backtrackPoints, table) && InState(ix, table, bind, others)
      requires At(ix, TheQuery(), backtrackPoints, node, k, bind, others) && lastSolved == |bind| - 1
      modifies Objects(table)
      ensures InState(ix, table, bind', others') && solved == |bind'| - 1
      ensures IsTurn(ix, TheQuery(), backtrackPoints, node, k, bind, others, next, bind', others')
    {
      hide IsTurn, At, IsTable, InState, WellFormedQuery, Numbered, Kinds, PointsOf, BacktrackCtxt.IsSolved,
           QvarCtxt.Solved;
      InStateLengths(ix, table, bind, others);
      solved, bind', others' := lastSolved, bind, others;
      if expr[k].CONST? {
        next := EvaluateConst(ix, k, node, bind, others);
      } else {
        var id := expr[k].special;
        IsSolvedIffBound(TheQuery(), ix, backtrackPoints, table, k, node, bind, others);
        if expr[k].QVAR? && table[id].IsSolved() {
          next := EvaluateBound(ix, table[id].q, k, node, bind, others);
        } else {
          next, bind', others' := EvaluateFresh(ix, table, k, node, bind, others);
          if next.Some? {
            solved := id;
          }
        }
      }
    }

    method EvaluateConst(ix: Index, k: nat, node: Node, ghost bind: Substitution, ghost others: seq<seq<Spot>>)
        returns (next: Option<Node>)
      requires WellFormedQuery(TheQuery()) && k < |expr| && expr[k].CONST?
      requires At(ix, TheQuery(), backtrackPoints, node, k, bind, others)
      ensures IsTurn(ix, TheQuery(), backtrackPoints, node, k, bind, others, next, bind, others)
    {
      hide View, IsNode, WellFormed, Run, Back, Held;
      ConstTurn(TheQuery(), View(ix, node), k, bind);
      next := GetChild(ix, node, Token(expr[k].meaningId, expr[k].arity));
      TurnSameBindings(ix, TheQuery(), backtrackPoints, node, k, bind, others, next);
    }

    method EvaluateBound(ix: Index, ctxt: QvarCtxt, k: nat, node: Node, ghost bind: Substitution,
                         ghost others: seq<seq<Spot>>)
        returns (next: Option<Node>)
      requires WellFormedQuery(TheQuery()) && k < |expr| && expr[k].QVAR? && expr[k].special < |bind|
      requires At(ix, TheQuery(), backtrackPoints, node, k, bind, others)
      requires ctxt.Solved(ix, bind[expr[k].special], others[expr[k].special])
      ensures IsTurn(ix, TheQuery(), backtrackPoints, node, k, bind, others, next, bind, others)
    {
      hide View, IsNode, WellFormed, Run, Back, GetToken;
      BoundTurn(TheQuery(), View(ix, node), k, bind);
      PathTokens(ctxt.places.tree, ctxt.places.need, ctxt.places.walk);
      next := FollowPath(ix, ctxt.places.backtrackIterators, node, bind[expr[k].special], NeedAt(expr, k));
      TurnSameBindings(ix, TheQuery(), backtrackPoints, node, k, bind, others, next);
    }

    method EvaluateFresh(ix: Index, table: seq<BacktrackCtxt>, k: nat, node: Node,
                         ghost bind: Substitution, ghost others: seq<seq<Spot>>)
        returns (next: Option<Node>, ghost bind': Substitution, ghost others': seq<seq<Spot>>)
      requires Valid() && WellFormedQuery(TheQuery())
      requires k < |expr| && !expr[k].CONST? && expr[k].special == |bind| < |table|
      requires IsTable(TheQuery(), backtrackPoints, table) && InState(ix, table, bind, others)
      requires At(ix, TheQuery(), backtrackPoints, node, k, bind, others)
      modifies Objects(table)
      ensures InState(ix, table, bind', others')
      ensures |bind'| == |bind| + if next.Some? then 1 else 0
      ensures IsTurn(ix, TheQuery(), backtrackPoints, node, k, bind, others, next, bind', others')
    {
      hide View, IsNode, WellFormed, Run, RunEach, Back, InState, IsTable, Held, Alternatives, Objects, Shaped, IsTurn,
           Choices, Specials;
      FreshTurn(TheQuery(), backtrackPoints, View(ix, node), k, bind, others);
      ghost var path, rest;
      next, path, rest := SolveSpecial(ix, table, k, node, bind, others);
      if next.Some? {
        bind', others' := bind + [path], others + [rest];
        TakeChoice(TheQuery(), backtrackPoints, bind, others, path, View(ix, next.value), rest);
        TurnFresh(ix, TheQuery(), backtrackPoints, node, k, bind, others, next.value, path, rest);
      } else {
        bind', others' := bind, others;
        TurnFreshNone(ix, TheQuery(), backtrackPoints, node, k, bind, others);
      }
    }

    method SolveSpecial(ix: Index, table: seq<BacktrackCtxt>, k: nat, node: Node, ghost bind: Substitution,
                        ghost others: seq<seq<Spot>>)
        returns (next: Option<Node>, ghost path: seq<Token>, ghost rest: seq<Spot>)
      requires k < |expr| && !expr[k].CONST? && expr[k].special == |bind| < |table|
      requires IsTable(TheQuery(), backtrackPoints, table) && InState(ix, table, bind, others)
      requires backtrackPoints[|bind|] == k + 1
      requires IsNode(ix, node) && NeedAt(expr, k) > 0 && WellFormed(View(ix, node), NeedAt(expr, k))
      modifies Objects(table)
      ensures next.None? ==> Alternatives(TheQuery(), View(ix, node), k) == [] && InState(ix, table, bind, others)
      ensures next.Some? ==>
                && IsNode(ix, next.value)
                && Alternatives(TheQuery(), View(ix, node), k) == [Spot(path, View(ix, next.value))] + rest
                && InState(ix, table, bind + [path], others + [rest])
    {
      hide View, IsNode, Spots, InRange, WellFormed, BacktrackCtxt.Solved, BacktrackCtxt.Unsolved;
      var ctxt := table[expr[k].special];
      assert Suits(TheQuery(), k + 1, ctxt) && ctxt.Unsolved();
      assert forall i | 0 <= i < |table| && i != |bind| :: table[i].Footprint() !! ctxt.Footprint();
      assert ctxt.Footprint() <= Objects(table);
      next, path, rest := SolveContext(ix, ctxt, k, node);
      assert forall i | 0 <= i < |bind| :: table[i].Solved(ix, bind[i], others[i]);
      assert forall i | |bind| < i < |table| :: table[i].Unsolved();
    }

    method SolveContext(ix: Index, ctxt: BacktrackCtxt, k: nat, node: Node)
        returns (next: Option<Node>, ghost path: seq<Token>, ghost rest: seq<Spot>)
      requires k < |expr| && !expr[k].CONST? && Suits(TheQuery(), k + 1, ctxt) && ctxt.Unsolved()
      requires IsNode(ix, node) && NeedAt(expr, k) > 0 && WellFormed(View(ix, node), NeedAt(expr, k))
      modifies ctxt.Footprint()
      ensures next.None? ==> Alternatives(TheQuery(), View(ix, node), k) == [] && ctxt.Unsolved()
      ensures next.Some? ==>
                && IsNode(ix, next.value) && ctxt.Solved(ix, path, rest)
                && Alternatives(TheQuery(), View(ix, node), k) == [Spot(path, View(ix, next.value))] + rest
    {
      hide View, IsNode, Spots, InRange;
      match ctxt {
        case Qvar(q) => next, path, rest := q.Solve(ix, node, NeedAt(expr, k));
        case Range(r) => next, path, rest := r.Solve(ix, node);
      }
    }

    /** Gives up specials from the last one on until one of them has a further choice. */
    method Backtrack(ix: Index, table: seq<BacktrackCtxt>, lastSolved: int, ghost bind: Substitution,
                     ghost others: seq<seq<Spot>>)
        returns (next: Option<Node>, solved: int, ghost bind': Substitution, ghost others': seq<seq<Spot>>)
      requires IsTable(TheQuery(), backtrackPoints, table) && InState(ix, table, bind, others)
      requires Held(TheQuery(), backtrackPoints, bind, others) && lastSolved == |bind| - 1
      modifies Objects(table)
      ensures InState(ix, table, bind', others') && solved == |bind'| - 1
      ensures next.None? <==> solved == -1
      ensures next.None? ==> Back(TheQuery(), backtrackPoints, bind, others) == []
      ensures next.Some? ==>
                && solved < |backtrackPoints|
                && At(ix, TheQuery(), backtrackPoints, next.value, backtrackPoints[solved], bind', others')
                && Back(TheQuery(), backtrackPoints, bind, others)
                   == Pending(ix, TheQuery(), backtrackPoints, next.value, backtrackPoints[solved], bind', others')
    {
      next, solved, bind', others' := None, lastSolved, bind, others;
      NotResumed(ix, TheQuery(), backtrackPoints, bind, others);
      while solved >= 0 && next.None?
        invariant InState(ix, table, bind', others') && solved == |bind'| - 1
        invariant Held(TheQuery(), backtrackPoints, bind', others')
        invariant Resumed(ix, TheQuery(), backtrackPoints, bind, others, next, bind', others')
        decreases solved, next.None?
      {
        hide IsTable, InState, Held, Back, At, Pending, Objects, Resumed;
        ghost var bind1, others1 := bind', others';
        next, bind', others' := Retry(ix, table, solved, bind', others');
        ResumedAgain(ix, TheQuery(), backtrackPoints, bind, others, bind1, others1, next, bind', others');
        if next.None? {
          solved := solved - 1;
        }
      }
    }

    /** Moves the last special on to its next choice, or gives it up. */
    method Retry(ix: Index, table: seq<BacktrackCtxt>, solved: nat, ghost bind: Substitution,
                 ghost others: seq<seq<Spot>>)
        returns (next: Option<Node>, ghost bind': Substitution, ghost others': seq<seq<Spot>>)
      requires IsTable(TheQuery(), backtrackPoints, table) && InState(ix, table, bind, others)
      requires Held(TheQuery(), backtrackPoints, bind, others) && solved == |bind| - 1
      modifies Objects(table)
      ensures InState(ix, table, bind', others') && Held(TheQuery(), backtrackPoints, bind', others')
      ensures Resumed(ix, TheQuery(), backtrackPoints, bind, others, next, bind', others')
      ensures solved == if next.None? then |bind'| else |bind'| - 1
    {
      hide IsTable, InState, Back, Objects, Choices, View, IsNode, Run, RunEach, Specials, WellFormed, NeedAt;
      ghost var path, rest;
      ReopenSpecial(TheQuery(), backtrackPoints, bind, others);
      next, path, rest := NextChoice(ix, table, solved, bind, others);
      if next.Some? {
        TakeChoice(TheQuery(), backtrackPoints, Init(bind), Init(others), path, View(ix, next.value), rest);
        bind', others' := Init(bind) + [path], Init(others) + [rest];
      } else {
        DropSpecial(TheQuery(), backtrackPoints, bind, others);
        bind', others' := Init(bind), Init(others);
      }
    }

    method NextChoice(ix: Index, table: seq<BacktrackCtxt>, solved: nat, ghost bind: Substitution,
                      ghost others: seq<seq<Spot>>)
        returns (next: Option<Node>, ghost path: seq<Token>, ghost rest: seq<Spot>)
      requires IsTable(TheQuery(), backtrackPoints, table) && InState(ix, table, bind, others) && solved + 1 == |bind|
      modifies Objects(table)
      ensures next.None? ==> Last(others) == [] && InState(ix, table, Init(bind), Init(others))
      ensures next.Some? ==>
                && IsNode(ix, next.value)
                && Last(others) == [Spot(path, View(ix, next.value))] + rest
                && InState(ix, table, Init(bind) + [path], Init(others) + [rest])
    {
      hide View, IsNode, BacktrackCtxt.Solved, BacktrackCtxt.Unsolved, Suits, Valid;
      var ctxt := table[solved];
      assert forall i | 0 <= i < |table| && i != solved :: table[i].Footprint() !! ctxt.Footprint();
      assert ctxt.Footprint() <= Objects(table);
      next, path, rest := ctxt.NextSol(ix, bind[solved], others[solved]);
    }

    /** Counts the hits of a visited leaf and fetches those that belong to the page. */
    method VisitLeaf(ix: Index, db: MemFormulaDb, page: Page, node: Node, result: Answset) returns (result': Answset)
      requires IsNode(ix, node) && View(ix, node).Leaf?
      ensures result' == Account(options, db.data, page, View(ix, node), result)
    {
      hide View, IsNode, U32, Slice, Entries;
      var found: int := result.total;
      var hitsCount: int := if options.includeHits then GetHitsCount(ix, node) else 1;
      result' := result;
      if found < U32(page.size as int + page.offset as int) && found + hitsCount > page.offset {
        if options.includeHits {
          var formulaId := GetFormulaId(ix, node);
          var dbOffset, dbMaxSize;
          if page.offset < found {
            dbOffset, dbMaxSize := 0, U32(page.size as int + page.offset as int - found);
          } else {
            dbOffset, dbMaxSize := page.offset - found, page.size;
          }
          var _, answers := db.QueryFormula(formulaId, dbOffset, dbMaxSize, _ => false);
          result' := result'.(answers := result'.answers + answers);
        }
        if options.includeMwsIds {
          result' := result'.(ids := result'.ids + {GetFormulaId(ix, node)});
        }
      }
      var sum := U32(found + hitsCount);
      result' := result'.(total := if sum > page.maxTotal then page.maxTotal else sum);
    }

    /** The part of a turn before backtracking: a query token is evaluated, or behind the last
        one a leaf is visited. */
    method Forward(ix: Index, db: MemFormulaDb, page: Page, table: seq<BacktrackCtxt>, k: nat, node: Node,
                   lastSolved: int, result: Answset, ghost bind: Substitution, ghost others: seq<seq<Spot>>)
        returns (next: Option<Node>, solved: int, result': Answset, ghost bind': Substitution,
                 ghost others': seq<seq<Spot>>, ghost turn: Turn)
      requires Valid() && WellFormedQuery(TheQuery())
      requires IsTable(TheQuery(), backtrackPoints, table) && InState(ix, table, bind, others)
      requires At(ix, TheQuery(), backtrackPoints, node, k, bind, others) && lastSolved == |bind| - 1
      requires db !in Objects(table)
      modifies Objects(table)
      ensures db.data == old(db.data)
      ensures InState(ix, table, bind', others') && solved == |bind'| - 1
      ensures Held(TheQuery(), backtrackPoints, bind', others')
      ensures next.None? ==>
                Pending(ix, TheQuery(), backtrackPoints, node, k, bind, others)
                == [turn] + Back(TheQuery(), backtrackPoints, bind', others')
      ensures next.Some? ==>
                && k < |expr| && At(ix, TheQuery(), backtrackPoints, next.value, k + 1, bind', others')
                && Pending(ix, TheQuery(), backtrackPoints, node, k, bind, others)
                   == [turn] + Pending(ix, TheQuery(), backtrackPoints, next.value, k + 1, bind', others')
      ensures Counts(options, db.data, page, turn, result, result')
    {
      hide InState, IsTable, View, IsNode, Run, Back, Valid, WellFormedQuery, WellFormed, Account;
      if k < |expr| {
        next, solved, bind', others' := Evaluate(ix, table, k, node, lastSolved, bind, others);
        result', turn := result, Step;
      } else {
        LeafTurn(TheQuery(), View(ix, node), bind);
        next, solved, bind', others' := None, lastSolved, bind, others;
        result' := VisitLeaf(ix, db, page, node, result);
        turn := Visit(View(ix, node));
      }
    }

    /** One turn of the search loop; pending are the turns that remain after it. */
    method TakeTurn(ix: Index, db: MemFormulaDb, page: Page, table: seq<BacktrackCtxt>, k: nat, node: Node,
                    lastSolved: int, result: Answset, ghost bind: Substitution, ghost others: seq<seq<Spot>>)
        returns (k': nat, next: Option<Node>, solved: int, result': Answset,
                 ghost bind': Substitution, ghost others': seq<seq<Spot>>, ghost turn: Turn, ghost pending: seq<Turn>)
      requires Valid() && WellFormedQuery(TheQuery())
      requires IsTable(TheQuery(), backtrackPoints, table) && InState(ix, table, bind, others)
      requires At(ix, TheQuery(), backtrackPoints, node, k, bind, others) && lastSolved == |bind| - 1
      requires db !in Objects(table)
      modifies Objects(table)
      ensures db.data == old(db.data)
      ensures InState(ix, table, bind', others') && solved == |bind'| - 1
      ensures Pending(ix, TheQuery(), backtrackPoints, node, k, bind, others) == [turn] + pending
      ensures Counts(options, db.data, page, turn, result, result')
      ensures next.None? ==> pending == []
      ensures next.Some? ==>
                && At(ix, TheQuery(), backtrackPoints, next.value, k', bind', others')
                && pending == Pending(ix, TheQuery(), backtrackPoints, next.value, k', bind', others')
    {
      hide InState, IsTable, At, Held, Objects, View, IsNode, Run, Back, Valid, WellFormedQuery, Pending, Counts;
      next, solved, result', bind', others',
          turn := Forward(ix, db, page, table, k, node, lastSolved, result, bind, others);
      if next.Some? {
        k' := k + 1;
      } else {
        next, solved, bind', others' := Backtrack(ix, table, solved, bind', others');
        k' := if next.Some? then backtrackPoints[solved] else k;
      }
      pending := if next.Some? then Pending(ix, TheQuery(), backtrackPoints, next.value, k', bind', others') else [];
    }

    /** The search: it goes through the instances of the query in trie order. */
    method GetResult(ix: Index, db: MemFormulaDb, page: Page) returns (result: Answset)
      requires Valid() && WellFormedQuery(TheQuery())
      requires IsIndex(ix) && WellFormed(View(ix, GetRootNode(ix)), 1)
      ensures result == Collect(options, db.data, Clamp(page), Matches(TheQuery(), View(ix, GetRootNode(ix))),
                                NOTHING_FOUND)
    {
      result := NOTHING_FOUND;
      var table := SetupTable(ix);
      var currentToken: nat, lastSolved, currentNode := 0, -1, Some(GetRootNode(ix));
      var clamped := Clamp(page);
      StartSearch(ix, TheQuery(), backtrackPoints);
      ghost var bind: Substitution, others: seq<seq<Spot>>, turn := [], [], Step;
      ghost var pending := Pending(ix, TheQuery(), backtrackPoints, currentNode.value, 0, [], []);
      ghost var expected := Collect(options, db.data, clamped, Visited(pending), result);
      hide InState, IsTable, At, Objects, View, IsNode, IsIndex, Valid, WellFormedQuery, Collect, Account, Visited,
           Pending, Counts, AllLeaves;
      while result.total < page.maxTotal && currentNode.Some?
        invariant InState(ix, table, bind, others) && lastSolved == |bind| - 1
        invariant db.data == old(db.data)
        invariant currentNode.None? ==> pending == []
        invariant currentNode.Some? ==>
                    && At(ix, TheQuery(), backtrackPoints, currentNode.value, currentToken, bind, others)
                    && pending == Pending(ix, TheQuery(), backtrackPoints, currentNode.value, currentToken, bind,
                                          others)
        invariant AllLeaves(Visited(pending))
        invariant expected == Collect(options, db.data, clamped, Visited(pending), result)
        decreases |pending|
      {
        ghost var before, all := result, pending;
        currentToken, currentNode, lastSolved, result, bind, others, turn, pending :=
          TakeTurn(ix, db, clamped, table, currentToken, currentNode.value, lastSolved, result, bind, others);
        CollectTurn(options, db.data, clamped, turn, pending, before, result);
      }
      CollectEnd(options, db.data, clamped, pending, result);
    }

    method NewContext(ix: Index, k: nat) returns (c: BacktrackCtxt)
      requires k < |expr| && !expr[k].CONST? && (expr[k].RANGE? ==> expr[k].meaningId in rangeBounds)
      ensures Suits(TheQuery(), k + 1, c) && c.Unsolved() && fresh(c.Footprint())
    {
      if expr[k].QVAR? {
        var q := new QvarCtxt(ix);
        c := Qvar(q);
      } else {
        var r := new RangeCtxt(rangeBounds[expr[k].meaningId], numbers, ix);
        c := Range(r);
      }
    }
  }

  lemma FollowOne(t: Trie, path: seq<Token>, i: nat, n: nat, c: nat)
    requires i < |path| && n > 0 && IsCode(path[i..], c) && WellFormed(t, n - 1 + c)
    ensures c - 1 + path[i].arity >= 0 && IsCode(path[i + 1..], c - 1 + path[i].arity)
    ensures t.Inner? && Sorted(t.kids)
    ensures var child := Child(t, path[i]);
            && Descend(t, path[i..]) == (if child.None? then None else Descend(child.value, path[i + 1..]))
            && (child.Some? ==> WellFormed(child.value, n - 1 + (c - 1 + path[i].arity)))
  {
    assert path[i..][0] == path[i] && path[i..][1..] == path[i + 1..];
    if Child(t, path[i]).Some? {
      var k := KeyIndex(t.kids, path[i]);
      assert WellFormed(t.kids[k].node, n - 1 + c - 1 + path[i].arity);
    }
  }

  lemma FollowEnd(t: Trie, path: seq<Token>)
    ensures Descend(t, path[|path|..]) == Some(t)
  {
  }

  /** Follows the tokens of a term found elsewhere in the index. */
  method FollowPath(ix: Index, its: seq<Iterator>, node: Node, ghost path: seq<Token>, ghost n: nat)
      returns (r: Option<Node>)
    requires |its| == |path| && forall i | 0 <= i < |its| :: IsIterator(ix, its[i]) && GetToken(ix, its[i]) == path[i]
    requires IsNode(ix, node) && n > 0 && WellFormed(View(ix, node), n) && IsCode(path, 1)
    ensures r.None? <==> Descend(View(ix, node), path).None?
    ensures r.Some? ==> IsNode(ix, r.value) && View(ix, r.value) == Descend(View(ix, node), path).value
  {
    hide View, IsNode, GetToken, HasNext, IsCode, WellFormed, Descend;
    var cur := node;
    ghost var c := 1;
    assert path[0..] == path;
    for i := 0 to |its|
      invariant IsNode(ix, cur) && c >= 0
      invariant IsCode(path[i..], c) && WellFormed(View(ix, cur), n - 1 + c)
      invariant Descend(View(ix, node), path) == Descend(View(ix, cur), path[i..])
    {
      FollowOne(View(ix, cur), path, i, n, c);
      var next := GetChild(ix, cur, GetToken(ix, its[i]));
      if next.None? {
        return None;
      }
      cur := next.value;
      c := c - 1 + path[i].arity;
    }
    FollowEnd(View(ix, cur), path);
    return Some(cur);
  }
}
