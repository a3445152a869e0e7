/** Encoded queries and what it means for a token sequence to be an instance of one. */
module Queries {
  import opened Tokens
  import opened Terms
  import opened Wrappers

  /** One query token: a constant, or a special (query variable or numeric range).
      Specials are numbered in order of first occurrence. */
  datatype Item =
    | CONST(meaningId: MeaningId, arity: Arity)
    | QVAR(meaningId: MeaningId, special: nat)
    | RANGE(meaningId: MeaningId, special: nat)

  datatype Interval = Interval(low: real, high: real)

  /** numbers gives the value of each meaning that denotes a number. */
  datatype Query = Query(expr: seq<Item>, bounds: map<MeaningId, Interval>, numbers: map<MeaningId, real>)

  /** A token may stand at a range if it is a childless number within the bounds. */
  predicate ValidSubst(numbers: map<MeaningId, real>, limits: Interval, tok: Token)
  {
    tok.arity == 0 && tok.id in numbers && limits.low <= numbers[tok.id] <= limits.high
  }

  /** The number of specials that occur in the first k tokens. */
  ghost function Specials(expr: seq<Item>, k: nat): nat
    requires k <= |expr|
  {
    if k == 0 then 0
    else
      var m := Specials(expr, k - 1);
      if expr[k - 1].CONST? || expr[k - 1].special < m then m else m + 1
  }

  /** An occurrence is either of the next special or of an earlier one; ranges are never shared. */
  ghost predicate NumberedAt(expr: seq<Item>, k: nat)
    requires k < |expr|
  {
    match expr[k]
    case CONST(_, _) => true
    case QVAR(_, s) => s <= Specials(expr, k)
    case RANGE(_, s) => s == Specials(expr, k)
  }

  /** Specials are numbered by first occurrence. */
  ghost predicate Numbered(expr: seq<Item>)
  {
    forall k | 0 <= k < |expr| :: NumberedAt(expr, k)
  }

  /** From token k on, the query is the concatenation of need terms; specials have no children. */
  ghost predicate Shaped(expr: seq<Item>, k: nat, need: nat)
    requires k <= |expr|
    decreases |expr| - k
  {
    if k == |expr| then need == 0
    else need > 0 && Shaped(expr, k + 1, need - 1 + if expr[k].CONST? then expr[k].arity else 0)
  }

  /** The arity count of the query before token k. */
  ghost function NeedAt(expr: seq<Item>, k: nat): int
    requires k <= |expr|
  {
    if k == 0 then 1
    else NeedAt(expr, k - 1) - 1 + if expr[k - 1].CONST? then expr[k - 1].arity else 0
  }

  lemma {:induction false} ShapedAt(expr: seq<Item>, k: nat)
    requires Shaped(expr, 0, 1) && k <= |expr|
    ensures NeedAt(expr, k) >= 0 && Shaped(expr, k, NeedAt(expr, k))
    decreases k
  {
    if k > 0 {
      ShapedAt(expr, k - 1);
    }
  }

  ghost predicate WellFormedQuery(q: Query)
  {
    && Numbered(q.expr)
    && Shaped(q.expr, 0, 1)
    && forall k | 0 <= k < |q.expr| && q.expr[k].RANGE? :: q.expr[k].meaningId in q.bounds
  }

  lemma {:induction false} SpecialsMonotone(expr: seq<Item>, i: nat, j: nat)
    requires i <= j <= |expr|
    ensures Specials(expr, i) <= Specials(expr, j)
    decreases j
  {
    if i < j {
      SpecialsMonotone(expr, i, j - 1);
    }
  }

  // ---------------------------------------------------------------- instances

  type Substitution = seq<seq<Token>>

  /** What special token item may be replaced with. */
  ghost predicate Fits(q: Query, item: Item, w: seq<Token>)
    requires !item.CONST?
  {
    match item
    case QVAR(_, _) => IsCode(w, 1)
    case RANGE(id, _) => |w| == 1 && id in q.bounds && ValidSubst(q.numbers, q.bounds[id], w[0])
  }

  ghost predicate Covers(expr: seq<Item>, sub: Substitution)
  {
    forall k | 0 <= k < |expr| && !expr[k].CONST? :: expr[k].special < |sub|
  }

  /** sub gives every special from m on something that fits each occurrence from token k on. */
  ghost predicate SolvesFrom(q: Query, k: nat, m: nat, sub: Substitution)
  {
    && |sub| == Specials(q.expr, |q.expr|)
    && Covers(q.expr, sub)
    && forall j | k <= j < |q.expr| && !q.expr[j].CONST? && m <= q.expr[j].special ::
         Fits(q, q.expr[j], sub[q.expr[j].special])
  }

  /** The query from token k on with every special replaced. */
  ghost function Fill(expr: seq<Item>, k: nat, sub: Substitution): seq<Token>
    requires k <= |expr| && Covers(expr, sub)
    decreases |expr| - k
  {
    if k == |expr| then []
    else
      var here := if expr[k].CONST? then [Token(expr[k].meaningId, expr[k].arity)] else sub[expr[k].special];
      here + Fill(expr, k + 1, sub)
  }

  /** w arises from the query by replacing each variable by one term, the same at every
      occurrence, and each range by a number within its bounds. */
  ghost predicate IsInstance(q: Query, w: seq<Token>)
  {
    exists sub: Substitution :: SolvesFrom(q, 0, 0, sub) && w == Fill(q.expr, 0, sub)
  }

  // ---------------------------------------------------------------- recognition

  /** Matches w against the query from token k on; b binds the specials met so far. */
  ghost predicate Accepts(q: Query, k: nat, b: Substitution, w: seq<Token>)
    requires k <= |q.expr|
    decreases |q.expr| - k
  {
    if k == |q.expr| then w == []
    else match q.expr[k]
      case CONST(id, ar) => w != [] && w[0] == Token(id, ar) && Accepts(q, k + 1, b, w[1..])
      case QVAR(_, s) =>
        if s < |b| then b[s] <= w && Accepts(q, k + 1, b, w[|b[s]|..])
        else
          var n := FirstCode(w, 1);
          n.Some? && Accepts(q, k + 1, b + [w[..n.value]], w[n.value..])
      case RANGE(id, _) =>
        && w != []
        && id in q.bounds && ValidSubst(q.numbers, q.bounds[id], w[0])
        && Accepts(q, k + 1, b + [w[..1]], w[1..])
  }

  lemma {:induction false} AcceptsSound(q: Query, k: nat, b: Substitution, w: seq<Token>) returns (sub: Substitution)
    requires Numbered(q.expr) && k <= |q.expr| && |b| == Specials(q.expr, k)
    requires Accepts(q, k, b, w)
    ensures b <= sub && SolvesFrom(q, k, |b|, sub) && w == Fill(q.expr, k, sub)
    decreases |q.expr| - k
  {
    if k == |q.expr| {
      sub := b;
      AllCovered(q.expr, b);
    } else {
      assert NumberedAt(q.expr, k);
      if q.expr[k].CONST? {
        sub := AcceptsSound(q, k + 1, b, w[1..]);
      } else if q.expr[k].special < |b| {
        sub := AcceptsSound(q, k + 1, b, w[|b[q.expr[k].special]|..]);
      } else {
        var n := if q.expr[k].QVAR? then FirstCode(w, 1).value else 1;
        sub := AcceptsSound(q, k + 1, b + [w[..n]], w[n..]);
        NewSpecialFits(q, k, b, w[..n], sub);
      }
    }
  }

  lemma AllCovered(expr: seq<Item>, sub: Substitution)
    requires Numbered(expr) && |sub| == Specials(expr, |expr|)
    ensures Covers(expr, sub)
  {
    forall j | 0 <= j < |expr| && !expr[j].CONST?
      ensures expr[j].special < |sub|
    {
      assert NumberedAt(expr, j);
      SpecialsMonotone(expr, j + 1, |expr|);
    }
  }

  lemma NewSpecialFits(q: Query, k: nat, b: Substitution, v: seq<Token>, sub: Substitution)
    requires Numbered(q.expr) && k < |q.expr| && !q.expr[k].CONST?
    requires q.expr[k].special == |b| == Specials(q.expr, k)
    requires b + [v] <= sub && SolvesFrom(q, k + 1, |b| + 1, sub) && Fits(q, q.expr[k], v)
    ensures b <= sub && sub[|b|] == v && SolvesFrom(q, k, |b|, sub)
  {
    assert sub[|b|] == (b + [v])[|b|];
    forall j | k <= j < |q.expr| && !q.expr[j].CONST? && |b| <= q.expr[j].special
      ensures Fits(q, q.expr[j], sub[q.expr[j].special])
    {
      if q.expr[j].special == |b| {
        if k < j && q.expr[j].RANGE? {
          assert NumberedAt(q.expr, j);
          SpecialsMonotone(q.expr, k + 1, j);
          assert false;
        }
        assert IsCode(v, 1) by {
          assert q.expr[k].RANGE? ==> v[1..] == [];
        }
      }
    }
  }

  lemma {:induction false} AcceptsComplete(q: Query, k: nat, b: Substitution, w: seq<Token>, sub: Substitution)
    requires Numbered(q.expr) && k <= |q.expr| && |b| == Specials(q.expr, k)
    requires b <= sub && SolvesFrom(q, k, |b|, sub) && w == Fill(q.expr, k, sub)
    ensures Accepts(q, k, b, w)
    decreases |q.expr| - k
  {
    if k < |q.expr| {
      var rest := Fill(q.expr, k + 1, sub);
      assert NumberedAt(q.expr, k);
      if q.expr[k].CONST? {
        assert w[1..] == rest;
        AcceptsComplete(q, k + 1, b, rest, sub);
      } else {
        var v := sub[q.expr[k].special];
        assert w == v + rest && w[|v|..] == rest && w[..|v|] == v;
        if q.expr[k].special < |b| {
          AcceptsComplete(q, k + 1, b, rest, sub);
        } else {
          SpecialsMonotone(q.expr, k + 1, |q.expr|);
          assert b + [v] == sub[..|b| + 1];
          AcceptsComplete(q, k + 1, b + [v], rest, sub);
          if q.expr[k].QVAR? {
            CodePrefixUnique(w, |v|, 1);
          }
        }
      }
    }
  }

  /** Left-to-right matching decides the declarative notion of instance. */
  lemma AcceptsIffInstance(q: Query, w: seq<Token>)
    requires WellFormedQuery(q)
    ensures Accepts(q, 0, [], w) <==> IsInstance(q, w)
  {
    if Accepts(q, 0, [], w) {
      var sub := AcceptsSound(q, 0, [], w);
    }
    if IsInstance(q, w) {
      var sub: Substitution :| SolvesFrom(q, 0, 0, sub) && w == Fill(q.expr, 0, sub);
      AcceptsComplete(q, 0, [], w, sub);
    }
  }
}
