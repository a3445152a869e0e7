/** The two engines mean the same by an instance, except where one shares variables or reads ranges
    and the other does not. */
module InstanceNotions {
  import opened Tokens
  import opened Terms
  import opened Queries
  import opened SearchContexts
  import opened Wrappers
  import E = EngineSpec

  /** There is no range, and no anonymous variable has an id of another variable. */
  ghost predicate ReadAlike(formula: seq<Token>)
  {
    && (forall i | 0 <= i < |formula| :: !formula[i].IsRange())
    && forall i, j | 0 <= i < j < |formula| && formula[i].IsVar() && formula[j].IsVar()
        && formula[i].id == formula[j].id ::
         !formula[i].IsAnonVar()
  }

  /** The two ways to give the terms for the variables. */
  ghost predicate Corresponds(formula: seq<Token>, expr: seq<Item>, sub: Substitution, m: E.Substitution)
  {
    && |expr| == |formula|
    && forall i | 0 <= i < |formula| && formula[i].IsVar() ::
         && expr[i].QVAR? && expr[i].special < |sub|
         && formula[i].id in m && m[formula[i].id] == sub[expr[i].special]
  }

  lemma {:induction false} FilledAlike(formula: seq<Token>, expr: seq<Item>, sub: Substitution, m: E.Substitution,
                                       k: nat)
    requires Prepared(formula, expr) && ReadAlike(formula) && Corresponds(formula, expr, sub, m) && Covers(expr, sub)
    requires k <= |formula|
    ensures Fill(expr, k, sub) == E.Instance(formula[k..], m)
    decreases |formula| - k
  {
    hide Numbered, SameVariable, Token.IsAnonVar;
    if k < |formula| {
      assert formula[k..][0] == formula[k] && formula[k..][1..] == formula[k + 1..];
      assert !formula[k].IsRange();
      FilledAlike(formula, expr, sub, m, k + 1);
    }
  }

  /** From the numbered substitution to the named one. */
  lemma ByName(q: Query, formula: seq<Token>, sub: Substitution) returns (m: E.Substitution)
    requires Prepared(formula, q.expr) && ReadAlike(formula) && SolvesFrom(q, 0, 0, sub)
    ensures Corresponds(formula, q.expr, sub, m) && E.AreCodes(m)
  {
    hide Numbered, Specials, IsCode;
    forall i, j | 0 <= i < |formula| && 0 <= j < |formula| && formula[i].IsVar() && formula[j].IsVar()
        && formula[i].id == formula[j].id
      ensures q.expr[i].special == q.expr[j].special
    {
      if i < j {
        assert SameVariable(formula[i], formula[j]);
      } else if j < i {
        assert SameVariable(formula[j], formula[i]);
      }
    }
    m := map i | 0 <= i < |formula| && formula[i].IsVar() :: formula[i].id := sub[q.expr[i].special];
    forall v | v in m
      ensures IsCode(m[v], 1)
    {
      var i :| 0 <= i < |formula| && formula[i].IsVar() && formula[i].id == v && m[v] == sub[q.expr[i].special];
      assert Fits(q, q.expr[i], sub[q.expr[i].special]);
    }
  }

  /** And back: a special gets what the variable at its first occurrence gets. */
  lemma ByNumber(q: Query, formula: seq<Token>, points: seq<nat>, m: E.Substitution) returns (sub: Substitution)
    requires Prepared(formula, q.expr) && ReadAlike(formula) && PointsOf(q.expr, points) && E.AreCodes(m)
    requires forall i | 0 <= i < |formula| && formula[i].IsVar() :: formula[i].id in m
    ensures Corresponds(formula, q.expr, sub, m) && SolvesFrom(q, 0, 0, sub)
  {
    hide Numbered, Specials, IsCode;
    forall s | 0 <= s < |points|
      ensures 0 < points[s] <= |formula| && formula[points[s] - 1].IsVar() && q.expr[points[s] - 1].special == s
    {
      assert PointOf(q.expr, s, points[s]);
      assert !formula[points[s] - 1].IsRange();
    }
    sub := seq(|points|, s requires 0 <= s < |points| => m[formula[points[s] - 1].id]);
    PointsCover(q.expr, points);
    forall i | 0 <= i < |formula| && formula[i].IsVar()
      ensures q.expr[i].QVAR? && q.expr[i].special < |sub| && m[formula[i].id] == sub[q.expr[i].special]
    {
      var j := points[q.expr[i].special] - 1;
      if i < j {
        assert SameVariable(formula[i], formula[j]);
      } else if j < i {
        assert SameVariable(formula[j], formula[i]);
      }
    }
    forall i | 0 <= i < |formula| && !q.expr[i].CONST?
      ensures formula[i].IsVar() && q.expr[i].special < |sub| && Fits(q, q.expr[i], sub[q.expr[i].special])
    {
      assert !formula[i].IsRange();
      assert IsCode(m[formula[i].id], 1);
    }
  }

  lemma PointsCover(expr: seq<Item>, points: seq<nat>)
    requires Numbered(expr) && PointsOf(expr, points)
    ensures forall i | 0 <= i < |expr| && !expr[i].CONST? :: expr[i].special < |points|
  {
    forall i | 0 <= i < |expr| && !expr[i].CONST?
      ensures expr[i].special < |points|
    {
      assert NumberedAt(expr, i);
      SpecialsMonotone(expr, i + 1, |expr|);
    }
  }

  /** A prepared query has the instances that the experimental engine looks for. */
  lemma InstancesAlike(q: Query, formula: seq<Token>, points: seq<nat>, w: seq<Token>)
    requires Prepared(formula, q.expr) && PointsOf(q.expr, points) && ReadAlike(formula)
    ensures IsInstance(q, w) <==> E.IsInstanceOf(formula, w)
  {
    hide Numbered, Specials, PointsOf, Fits, Corresponds, E.AreCodes, ReadAlike;
    assert formula[0..] == formula;
    if IsInstance(q, w) {
      var sub: Substitution :| SolvesFrom(q, 0, 0, sub) && w == Fill(q.expr, 0, sub);
      var m := ByName(q, formula, sub);
      FilledAlike(formula, q.expr, sub, m, 0);
      NamesGiven(formula, q.expr, sub, m);
    }
    if E.IsInstanceOf(formula, w) {
      var m: E.Substitution :| E.AreCodes(m)
          && (forall i | 0 <= i < |formula| && formula[i].IsVar() :: formula[i].id in m)
                               && w == E.Instance(formula, m);
      var sub := ByNumber(q, formula, points, m);
      FilledAlike(formula, q.expr, sub, m, 0);
    }
  }

  lemma NamesGiven(formula: seq<Token>, expr: seq<Item>, sub: Substitution, m: E.Substitution)
    requires Corresponds(formula, expr, sub, m)
    ensures forall i | 0 <= i < |formula| && formula[i].IsVar() :: formula[i].id in m
  {
  }
}
