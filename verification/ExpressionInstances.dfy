/** Instances of query expressions, and the codes that the search finds for them. */
module ExpressionInstances {
  import opened Tokens
  import opened Terms
  import opened Expressions
  import opened CiRenaming
  import opened ExpressionEncoders
  import opened AlphaEncoding
  import opened Numberings
  import opened QueryIds
  import opened SearchContexts
  import opened IdDictionaries
  import opened Wrappers
  import Q = Queries

  // ---------------------------------------------------------------- instances of expressions

  /** An expression as it stands in the dictionary: its meanings, with aliases for renamed names. */
  function Stored(e: Expr, head: bool, known: seq<string>, renameCi: bool): Shape
    decreases e, 0
  {
    Shape(Fixed(Translated(Item(e, head), known, renameCi)), StoredAll(e.kids, e.tag == "apply", known, renameCi))
  }

  function StoredAll(es: seq<Expr>, head: bool, known: seq<string>, renameCi: bool): (r: seq<Shape>)
    ensures |r| == |es|
    decreases es, 1
  {
    if es == [] then [] else [Stored(es[0], head, known, renameCi)] + StoredAll(es[1..], false, known, renameCi)
  }

  /** How a query expression is read: the names it renames, the bounds of its ranges, and the number
      that a text is, None if it is none. */
  datatype Reading =
    Reading(known: seq<string>, renameCi: bool, limits: Expr -> Q.Interval, parse: string -> Option<real>)

  const NUMBER_PREF := "cn#"

  /** The number that a meaning stands for. */
  function NumberIn(meaning: string, parse: string -> Option<real>): Option<real> {
    if NUMBER_PREF <= meaning then parse(meaning[|NUMBER_PREF|..]) else None
  }

  /** s is the query with each name replaced by what f gives for it, each variable without a name by
      anything, and each range by a number within its bounds. */
  ghost predicate Puts(q: Expr, head: bool, s: Shape, f: map<string, Shape>, rd: Reading)
    decreases q
  {
    if q.IsVar() then q.VarName() != "" ==> q.VarName() in f && f[q.VarName()] == s
    else if q.IsRange() then InLimits(rd.limits(q), s, rd.parse)
    else
      && s.sym == Fixed(Translated(Item(q, head), rd.known, rd.renameCi)) && |s.kids| == |q.kids|
      && forall i | 0 <= i < |q.kids| :: Puts(q.kids[i], q.tag == "apply" && i == 0, s.kids[i], f, rd)
  }

  predicate InLimits(limits: Q.Interval, s: Shape, parse: string -> Option<real>) {
    && s.kids == [] && s.sym.Fixed? && NumberIn(s.sym.meaning, parse).Some?
    && limits.low <= NumberIn(s.sym.meaning, parse).value <= limits.high
  }

  ghost predicate PutsAll(qs: seq<Expr>, head: bool, ss: seq<Shape>, f: map<string, Shape>, rd: Reading)
  {
    |ss| == |qs| && forall i | 0 <= i < |qs| :: Puts(qs[i], head && i == 0, ss[i], f, rd)
  }

  /** The same names get the same expressions. */
  ghost predicate IsInstance(q: Expr, head: bool, s: Shape, rd: Reading)
  {
    exists f: map<string, Shape> :: Puts(q, head, s, f, rd)
  }

  ghost predicate Extends(f': map<string, Shape>, f: map<string, Shape>)
  {
    forall x | x in f :: x in f' && f'[x] == f[x]
  }

  lemma {:induction false} PutsMore(q: Expr, head: bool, s: Shape, f: map<string, Shape>, f': map<string, Shape>,
                                    rd: Reading)
    requires Puts(q, head, s, f, rd) && Extends(f', f)
    ensures Puts(q, head, s, f', rd)
    decreases q
  {
    hide InLimits;
    if !q.IsVar() && !q.IsRange() {
      forall i | 0 <= i < |q.kids|
        ensures Puts(q.kids[i], q.tag == "apply" && i == 0, s.kids[i], f', rd)
      {
        PutsMore(q.kids[i], q.tag == "apply" && i == 0, s.kids[i], f, f', rd);
      }
    }
  }

  // ---------------------------------------------------------------- codes of shapes

  /** All meanings are in the dictionary and nothing is too wide for a token. */
  ghost predicate Codable(s: Shape, keys: seq<string>)
    decreases s
  {
    && s.sym.Fixed? && s.sym.meaning in keys && |s.kids| <= ENC_TOK_MAX_ARITY
    && forall i | 0 <= i < |s.kids| :: Codable(s.kids[i], keys)
  }

  ghost predicate AllCodable(ss: seq<Shape>, keys: seq<string>)
  {
    forall i | 0 <= i < |ss| :: Codable(ss[i], keys)
  }

  function MeaningToken(meaning: string, n: Arity, keys: seq<string>): Token {
    Token(ConstantId(NumberOf(keys, meaning)), n)
  }

  ghost function Code(s: Shape, keys: seq<string>): (w: seq<Token>)
    requires Codable(s, keys)
    decreases s, 0
  {
    [MeaningToken(s.sym.meaning, |s.kids|, keys)] + CodeAll(s.kids, keys)
  }

  ghost function CodeAll(ss: seq<Shape>, keys: seq<string>): seq<Token>
    requires AllCodable(ss, keys)
    decreases ss, 1
  {
    if ss == [] then [] else
      assert AllCodable(ss[1..], keys) by { assert forall i | 0 <= i < |ss| - 1 :: ss[1..][i] == ss[i + 1]; }
      Code(ss[0], keys) + CodeAll(ss[1..], keys)
  }

  lemma {:induction false} CodeAllIsCode(ss: seq<Shape>, keys: seq<string>)
    requires AllCodable(ss, keys)
    ensures IsCode(CodeAll(ss, keys), |ss|)
    decreases ss
  {
    hide Codable, Code, MeaningToken, IsCode;
    if ss == [] {
      NoCode();
    } else {
      var x, r := CodesHead(ss, [], keys);
      CodeAllIsCode(ss[0].kids, keys);
      CodeAllIsCode(ss[1..], keys);
      NodeIsCode(ss[0], keys);
      CodeConcat(Code(ss[0], keys), CodeAll(ss[1..], keys), 1, |ss| - 1);
    }
  }

  lemma NoCode()
    ensures IsCode([], 0)
  {
  }

  lemma NodeIsCode(s: Shape, keys: seq<string>)
    requires Codable(s, keys) && IsCode(CodeAll(s.kids, keys), |s.kids|)
    ensures IsCode(Code(s, keys), 1)
  {
    hide CodeAll;
    var w := Code(s, keys);
    assert w[1..] == CodeAll(s.kids, keys);
  }

  lemma MeaningTokenInjective(a: string, m: Arity, b: string, n: Arity, keys: seq<string>)
    requires IdsFit(keys) && a in keys && b in keys
    ensures MeaningToken(a, m, keys) == MeaningToken(b, n, keys) <==> a == b && m == n
  {
    if NumberOf(keys, a) == NumberOf(keys, b) {
      NumberInjective(keys, a, b);
    }
    var x, y := NumberOf(keys, a), NumberOf(keys, b);
    hide NumberOf;
    assert ConstantId(x) == CONSTANT_ID_MIN + x && ConstantId(y) == CONSTANT_ID_MIN + y;
  }

  /** Codes determine their shapes, also when something follows. */
  lemma {:induction false} CodesDetermine(a: seq<Shape>, b: seq<Shape>, rest: seq<Token>, rest': seq<Token>,
                                          keys: seq<string>)
    requires IdsFit(keys) && |a| == |b| && AllCodable(a, keys) && AllCodable(b, keys)
    requires CodeAll(a, keys) + rest == CodeAll(b, keys) + rest'
    ensures a == b && rest == rest'
    decreases a
  {
    hide IdsFit, MeaningToken, Codable;
    if a == [] {
      assert CodeAll(a, keys) + rest == rest && CodeAll(b, keys) + rest' == rest';
    } else {
      var x, ra := CodesHead(a, rest, keys);
      var y, rb := CodesHead(b, rest', keys);
      assert [x] + (CodeAll(a[0].kids, keys) + ra) == [y] + (CodeAll(b[0].kids, keys) + rb);
      assert ([x] + (CodeAll(a[0].kids, keys) + ra))[1..] == CodeAll(a[0].kids, keys) + ra;
      assert ([y] + (CodeAll(b[0].kids, keys) + rb))[1..] == CodeAll(b[0].kids, keys) + rb;
      assert x == y;
      MeaningTokenInjective(a[0].sym.meaning, |a[0].kids|, b[0].sym.meaning, |b[0].kids|, keys);
      CodesDetermine(a[0].kids, b[0].kids, ra, rb, keys);
      CodesDetermine(a[1..], b[1..], rest, rest', keys);
      assert a == [a[0]] + a[1..] && b == [b[0]] + b[1..];
    }
  }

  lemma CodesHead(ss: seq<Shape>, rest: seq<Token>, keys: seq<string>) returns (x: Token, r: seq<Token>)
    requires ss != [] && AllCodable(ss, keys)
    ensures AllCodable(ss[1..], keys) && AllCodable(ss[0].kids, keys) && |ss[0].kids| <= ENC_TOK_MAX_ARITY
    ensures ss[0].sym.Fixed? && ss[0].sym.meaning in keys && Codable(ss[0], keys)
    ensures x == MeaningToken(ss[0].sym.meaning, |ss[0].kids|, keys) && r == CodeAll(ss[1..], keys) + rest
    ensures CodeAll(ss, keys) + rest == [x] + (CodeAll(ss[0].kids, keys) + r)
    ensures CodeAll(ss, keys) + rest == Code(ss[0], keys) + r
  {
    assert forall i | 0 <= i < |ss| - 1 :: ss[1..][i] == ss[i + 1];
    x := MeaningToken(ss[0].sym.meaning, |ss[0].kids|, keys);
    r := CodeAll(ss[1..], keys) + rest;
    var below := CodeAll(ss[0].kids, keys);
    assert (([x] + below) + CodeAll(ss[1..], keys)) + rest == [x] + (below + r);
  }

  lemma OneCode(s: Shape, keys: seq<string>)
    requires Codable(s, keys)
    ensures AllCodable([s], keys) && CodeAll([s], keys) == Code(s, keys) && IsCode(Code(s, keys), 1)
  {
    assert [s][1..] == [];
    assert CodeAll([s], keys) == Code(s, keys) + [];
    CodeAllIsCode([s], keys);
  }

  lemma CodePrefix(s: Shape, t: Shape, r: seq<Token>, keys: seq<string>)
    requires IdsFit(keys) && Codable(s, keys) && Codable(t, keys) && Code(s, keys) <= Code(t, keys) + r
    ensures s == t
  {
    OneCode(s, keys);
    OneCode(t, keys);
    var w := Code(t, keys) + r;
    var n := |Code(s, keys)|;
    assert w == w[..n] + w[n..];
    CodesDetermine([s], [t], w[n..], r, keys);
    assert [s][0] == [t][0];
  }

  // ---------------------------------------------------------------- one token of the query

  lemma AcceptsConst(q: Q.Query, k: nat, b: Q.Substitution, x: Token, r: seq<Token>)
    requires k < |q.expr| && q.expr[k].CONST?
    ensures Q.Accepts(q, k, b, [x] + r) <==>
              x == Token(q.expr[k].meaningId, q.expr[k].arity) && Q.Accepts(q, k + 1, b, r)
  {
    assert ([x] + r)[1..] == r;
  }

  lemma AcceptsOld(q: Q.Query, k: nat, b: Q.Substitution, u: seq<Token>, r: seq<Token>)
    requires k < |q.expr| && q.expr[k].QVAR? && q.expr[k].special < |b| && b[q.expr[k].special] == u
    ensures Q.Accepts(q, k, b, u + r) <==> Q.Accepts(q, k + 1, b, r)
  {
    assert (u + r)[|u|..] == r;
  }

  lemma AcceptsNew(q: Q.Query, k: nat, b: Q.Substitution, u: seq<Token>, r: seq<Token>)
    requires k < |q.expr| && q.expr[k].QVAR? && q.expr[k].special >= |b| && IsCode(u, 1)
    ensures Q.Accepts(q, k, b, u + r) <==> Q.Accepts(q, k + 1, b + [u], r)
  {
    assert (u + r)[..|u|] == u && (u + r)[|u|..] == r;
    CodePrefixUnique(u + r, |u|, 1);
  }

  lemma AcceptsRange(q: Q.Query, k: nat, b: Q.Substitution, x: Token, r: seq<Token>)
    requires k < |q.expr| && q.expr[k].RANGE?
    ensures Q.Accepts(q, k, b, [x] + r) <==>
              && q.expr[k].meaningId in q.bounds && Q.ValidSubst(q.numbers, q.bounds[q.expr[k].meaningId], x)
              && Q.Accepts(q, k + 1, b + [[x]], r)
  {
    assert ([x] + r)[..1] == [x] && ([x] + r)[1..] == r;
  }

  // ---------------------------------------------------------------- queries and their expressions

  /** A query, the items it was made from, the dictionary and the way it is read. */
  datatype Asked = Asked(items: seq<Item>, q: Q.Query, keys: seq<string>, rd: Reading)

  /** The query is that of an expression whose variables and ranges have no children. */
  ghost predicate QueryOf(c: Asked)
  {
    && IdsFit(c.keys) && Q.Numbered(c.q.expr) && ReadAsMeant(c.items, c.q.expr) && RangesApart(c.q.expr)
    && NumbersAgree(c.q.numbers, c.keys, c.rd.parse)
    && forall i | 0 <= i < |c.items| :: TokenOf(c, c.items[i], c.q.expr[i])
  }

  ghost predicate TokenOf(c: Asked, it: Item, x: Q.Item)
  {
    && (it.e.IsVar() ==> it.e.kids == [])
    && (it.e.IsRange() ==> it.e.kids == [] && x.meaningId in c.q.bounds && c.q.bounds[x.meaningId] == c.rd.limits(it.e))
    && (IsConstant(it) ==>
          var meaning := Translated(it, c.rd.known, c.rd.renameCi);
          && meaning in c.keys && |it.e.kids| <= ENC_TOK_MAX_ARITY
          && x.CONST? && Token(x.meaningId, x.arity) == MeaningToken(meaning, |it.e.kids|, c.keys))
  }

  /** A range shares its number with no other special. */
  ghost predicate RangesApart(expr: seq<Q.Item>)
  {
    forall i, j | 0 <= i < j < |expr| && expr[i].RANGE? && !expr[j].CONST? :: expr[i].special != expr[j].special
  }

  /** The search has the numbers of the meanings under their ids. */
  ghost predicate NumbersAgree(numbers: map<MeaningId, real>, keys: seq<string>, parse: string -> Option<real>)
  {
    forall m | m in keys ::
      var id, number := ConstantId(NumberOf(keys, m)), NumberIn(m, parse);
      (number.Some? <==> id in numbers) && (number.Some? ==> numbers[id] == number.value)
  }

  /** The numbers among the meanings of a lookup table, under their ids. */
  function NumbersOf(table: seq<string>, parse: string -> Option<real>): map<MeaningId, real> {
    map id: MeaningId | IsConstantId(table, id) && NumberIn(GetMeaning(table, id), parse).Some?
      :: NumberIn(GetMeaning(table, id), parse).value
  }

  lemma NumbersOfAgree(keys: seq<string>, parse: string -> Option<real>)
    requires IdsFit(keys)
    ensures NumbersAgree(NumbersOf(keys, parse), keys, parse)
  {
    hide NumberIn;
    forall m | m in keys
      ensures ConstantId(NumberOf(keys, m)) == CONSTANT_ID_MIN + NumberOf(keys, m)
              && keys[NumberOf(keys, m) - 1] == m
    {
    }
  }

  /** The specials met so far are bound to the codes of what f gives for their names. */
  ghost predicate Bound(c: Asked, k: nat, b: Q.Substitution, f: map<string, Shape>)
  {
    && k <= |c.items| == |c.q.expr| && |b| == Q.Specials(c.q.expr, k)
    && forall j | 0 <= j < k && c.items[j].e.IsVar() && c.items[j].e.VarName() != "" ::
         BoundAt(c.items[j], c.q.expr[j], c.keys, b, f)
  }

  ghost predicate BoundAt(it: Item, x: Q.Item, keys: seq<string>, b: Q.Substitution, f: map<string, Shape>)
    requires it.e.IsVar()
  {
    var name := it.e.VarName();
    && name in f && Codable(f[name], keys)
    && !x.CONST? && x.special < |b| && b[x.special] == Code(f[name], keys)
  }

  /** f knows only names met so far. */
  ghost predicate OnlyMet(items: seq<Item>, k: nat, f: map<string, Shape>)
    requires k <= |items|
  {
    forall x | x in f :: exists j :: 0 <= j < k && items[j].e.IsVar() && items[j].e.VarName() == x != ""
  }


  /** A special with a number below the count has occurred. */
  lemma {:induction false} SpecialOccurs(expr: seq<Q.Item>, k: nat, s: nat) returns (j: nat)
    requires k <= |expr| && s < Q.Specials(expr, k) && Q.Numbered(expr)
    ensures j < k && !expr[j].CONST? && expr[j].special == s
    decreases k
  {
    assert Q.NumberedAt(expr, k - 1);
    if s < Q.Specials(expr, k - 1) {
      j := SpecialOccurs(expr, k - 1, s);
    } else {
      j := k - 1;
    }
  }

  lemma {:induction false} EarlierSpecials(expr: seq<Q.Item>, k: nat, j: nat)
    requires j < k <= |expr| && Q.Numbered(expr) && !expr[j].CONST?
    ensures expr[j].special < Q.Specials(expr, k)
    decreases k
  {
    assert Q.NumberedAt(expr, j);
    if j < k - 1 {
      EarlierSpecials(expr, k - 1, j);
    }
  }

  /** A variable that is bound has a name, and it was met before. */
  lemma OldVariable(c: Asked, k: nat, b: Q.Substitution, f: map<string, Shape>)
    requires QueryOf(c) && k < |c.items| && c.items[k].e.IsVar() && Bound(c, k, b, f)
    requires c.q.expr[k].special < |b|
    ensures c.items[k].e.VarName() != "" && BoundAt(c.items[k], c.q.expr[k], c.keys, b, f)
  {
    hide Code, Codable, TokenOf, NumbersAgree;
    assert KindAsMeant(c.items[k], c.q.expr[k]);
    var j := SpecialOccurs(c.q.expr, k, c.q.expr[k].special);
    assert KindAsMeant(c.items[j], c.q.expr[j]);
    assert !c.q.expr[j].RANGE?;
    assert SameName(c.items[j], c.items[k]);
    assert BoundAt(c.items[j], c.q.expr[j], c.keys, b, f);
  }

  /** A variable that is not bound has no name or one that was not met before. */
  lemma NewVariable(c: Asked, k: nat, b: Q.Substitution, f: map<string, Shape>, head: bool, s: Shape)
      returns (f': map<string, Shape>)
    requires QueryOf(c) && k < |c.items| && c.items[k].e.IsVar() && Bound(c, k, b, f) && OnlyMet(c.items, k, f)
    requires c.q.expr[k].special >= |b| && Codable(s, c.keys)
    ensures Extends(f', f) && OnlyMet(c.items, k + 1, f') && Bound(c, k + 1, b + [Code(s, c.keys)], f')
    ensures Puts(c.items[k].e, head, s, f', c.rd)
  {
    hide Code, Codable, TokenOf, NumbersAgree;
    var name := c.items[k].e.VarName();
    forall x | x in f
      ensures x != name
    {
      var j :| 0 <= j < k && c.items[j].e.IsVar() && c.items[j].e.VarName() == x != "";
      EarlierSpecials(c.q.expr, k, j);
      assert !SameName(c.items[j], c.items[k]);
    }
    f' := if name == "" then f else f[name := s];
    assert OnlyMet(c.items, k + 1, f') by {
      forall x | x in f'
        ensures exists j :: 0 <= j < k + 1 && c.items[j].e.IsVar() && c.items[j].e.VarName() == x != ""
      {
        if x in f {
          var j :| 0 <= j < k && c.items[j].e.IsVar() && c.items[j].e.VarName() == x != "";
        }
      }
    }
    BindNew(c, k, b, f, f', s);
  }

  /** A new special is bound; if it is a variable with a name, f' has to know it. */
  lemma BindNew(c: Asked, k: nat, b: Q.Substitution, f: map<string, Shape>, f': map<string, Shape>, s: Shape)
    requires QueryOf(c) && k < |c.items| && !IsConstant(c.items[k]) && Bound(c, k, b, f) && Extends(f', f)
    requires c.q.expr[k].special >= |b| && Codable(s, c.keys)
    requires c.items[k].e.IsVar() && c.items[k].e.VarName() != "" ==>
               c.items[k].e.VarName() in f' && f'[c.items[k].e.VarName()] == s
    ensures Bound(c, k + 1, b + [Code(s, c.keys)], f')
  {
    hide Code, Codable, TokenOf, NumbersAgree;
    var b' := b + [Code(s, c.keys)];
    assert Q.NumberedAt(c.q.expr, k) && KindAsMeant(c.items[k], c.q.expr[k]);
    forall j | 0 <= j < k + 1 && c.items[j].e.IsVar() && c.items[j].e.VarName() != ""
      ensures BoundAt(c.items[j], c.q.expr[j], c.keys, b', f')
    {
      if j < k {
        assert BoundAt(c.items[j], c.q.expr[j], c.keys, b, f);
      }
    }
  }

  lemma BoundOn(c: Asked, k: nat, b: Q.Substitution, f: map<string, Shape>)
    requires QueryOf(c) && k < |c.items| && Bound(c, k, b, f) && !c.items[k].e.IsRange()
    requires c.items[k].e.IsVar() ==>
               c.q.expr[k].special < |b| && BoundAt(c.items[k], c.q.expr[k], c.keys, b, f)
    ensures Bound(c, k + 1, b, f)
  {
    hide Code, Codable, NumbersAgree;
    assert KindAsMeant(c.items[k], c.q.expr[k]) && TokenOf(c, c.items[k], c.q.expr[k]);
  }

  // ---------------------------------------------------------------- matching

  /** The items from k on are those of the expressions. */
  ghost predicate Stands(items: seq<Item>, k: nat, qs: seq<Expr>, head: bool)
  {
    Part(items, k, FlatAll(qs, head))
  }

  ghost predicate Part(items: seq<Item>, k: nat, part: seq<Item>)
  {
    k + |part| <= |items| && items[k..k + |part|] == part
  }

  lemma PartSplit(items: seq<Item>, k: nat, a: seq<Item>, b: seq<Item>)
    requires Part(items, k, a + b)
    ensures Part(items, k, a) && Part(items, k + |a|, b)
  {
    var ab := items[k..k + |a| + |b|];
    assert ab[..|a|] == a && ab[|a|..] == b;
  }

  lemma FlatAllStep(qs: seq<Expr>, head: bool)
    requires qs != []
    ensures FlatAll(qs, head)
         == [Item(qs[0], head)] + (FlatAll(qs[0].kids, qs[0].tag == "apply") + FlatAll(qs[1..], false))
  {
    Regroup([Item(qs[0], head)], FlatAll(qs[0].kids, qs[0].tag == "apply"), FlatAll(qs[1..], false));
  }

  lemma Regroup<T>(a: seq<T>, b: seq<T>, c: seq<T>)
    ensures (a + b) + c == a + (b + c)
  {
  }

  lemma StandsStep(items: seq<Item>, k: nat, qs: seq<Expr>, head: bool)
    requires qs != [] && Stands(items, k, qs, head)
    ensures k < |items| && items[k] == Item(qs[0], head)
    ensures var apply := qs[0].tag == "apply";
            var n := |FlatAll(qs[0].kids, apply)|;
            && Stands(items, k + 1, qs[0].kids, apply) && Stands(items, k + 1 + n, qs[1..], false)
            && |FlatAll(qs, head)| == 1 + n + |FlatAll(qs[1..], false)|
  {
    hide Part, FlatAll;
    var below, rest := FlatAll(qs[0].kids, qs[0].tag == "apply"), FlatAll(qs[1..], false);
    var one := [Item(qs[0], head)];
    FlatAllStep(qs, head);
    PartSplit(items, k, one, below + rest);
    PartSplit(items, k + 1, below, rest);
    OnePart(items, k, Item(qs[0], head));
  }

  lemma OnePart(items: seq<Item>, k: nat, it: Item)
    requires Part(items, k, [it])
    ensures k < |items| && items[k] == it
  {
    assert items[k..k + 1][0] == items[k];
  }

  /** What is met between. */
  ghost predicate Reaches(c: Asked, k: nat, b: Q.Substitution, f: map<string, Shape>)
  {
    Bound(c, k, b, f) && OnlyMet(c.items, k, f)
  }

  lemma OneVariable(c: Asked, k: nat, head: bool, s: Shape, r: seq<Token>, b: Q.Substitution, f: map<string, Shape>)
      returns (b': Q.Substitution, f': map<string, Shape>)
    requires QueryOf(c) && Reaches(c, k, b, f) && k < |c.items| && c.items[k].e.IsVar()
    requires Codable(s, c.keys) && Q.Accepts(c.q, k, b, Code(s, c.keys) + r)
    ensures Reaches(c, k + 1, b', f') && Extends(f', f) && Puts(c.items[k].e, head, s, f', c.rd)
    ensures Q.Accepts(c.q, k + 1, b', r)
  {
    hide Code, Codable, Bound, BoundAt, OnlyMet, TokenOf, Q.Accepts, Puts, NumbersAgree;
    assert KindAsMeant(c.items[k], c.q.expr[k]) by { BoundSize(c, k, b, f); }
    BoundSize(c, k, b, f);
    if c.q.expr[k].special < |b| {
      OldVariable(c, k, b, f);
      SameAgain(c, k, head, s, r, b, f);
      AcceptsOld(c.q, k, b, Code(s, c.keys), r);
      BoundOn(c, k, b, f);
      MetMore(c.items, k, f);
      b', f' := b, f;
    } else {
      f' := NewVariable(c, k, b, f, head, s);
      OneCode(s, c.keys);
      AcceptsNew(c.q, k, b, Code(s, c.keys), r);
      b' := b + [Code(s, c.keys)];
    }
  }

  lemma BoundSize(c: Asked, k: nat, b: Q.Substitution, f: map<string, Shape>)
    requires QueryOf(c) && k < |c.items| && Bound(c, k, b, f)
    ensures |c.q.expr| == |c.items| && (!IsConstant(c.items[k]) ==> !c.q.expr[k].CONST? && c.q.expr[k].special <= |b|)
  {
    hide Code, Codable, NumbersAgree, TokenOf;
    assert KindAsMeant(c.items[k], c.q.expr[k]);
    assert Q.NumberedAt(c.q.expr, k);
  }

  lemma SameAgain(c: Asked, k: nat, head: bool, s: Shape, r: seq<Token>, b: Q.Substitution, f: map<string, Shape>)
    requires QueryOf(c) && k < |c.items| && c.items[k].e.IsVar() && c.items[k].e.VarName() != ""
    requires c.q.expr[k].QVAR? && BoundAt(c.items[k], c.q.expr[k], c.keys, b, f)
    requires Codable(s, c.keys) && Q.Accepts(c.q, k, b, Code(s, c.keys) + r)
    ensures f[c.items[k].e.VarName()] == s && b[c.q.expr[k].special] == Code(s, c.keys)
    ensures Puts(c.items[k].e, head, s, f, c.rd)
  {
    hide Code, Codable, TokenOf, NumbersAgree;
    var t := f[c.items[k].e.VarName()];
    CodePrefix(t, s, r, c.keys);
  }

  lemma MetMore(items: seq<Item>, k: nat, f: map<string, Shape>)
    requires k < |items| && OnlyMet(items, k, f)
    ensures OnlyMet(items, k + 1, f)
  {
    forall x | x in f
      ensures exists j :: 0 <= j < k + 1 && items[j].e.IsVar() && items[j].e.VarName() == x != ""
    {
      var j :| 0 <= j < k && items[j].e.IsVar() && items[j].e.VarName() == x != "";
    }
  }

  /** A range takes exactly the numbers within its bounds. */
  lemma OneRange(c: Asked, k: nat, head: bool, s: Shape, r: seq<Token>, b: Q.Substitution, f: map<string, Shape>)
    requires QueryOf(c) && Bound(c, k, b, f) && k < |c.items| && c.items[k].e.IsRange() && Codable(s, c.keys)
    ensures Bound(c, k + 1, b + [Code(s, c.keys)], f)
    ensures Q.Accepts(c.q, k, b, Code(s, c.keys) + r)
       <==> Puts(c.items[k].e, head, s, f, c.rd) && Q.Accepts(c.q, k + 1, b + [Code(s, c.keys)], r)
  {
    hide Codable, Q.Accepts, Bound, ReadAsMeant, RangesApart, IdsFit;
    RangeIsNew(c, k, b, f);
    var it, x := c.items[k], c.q.expr[k];
    BindNew(c, k, b, f, f, s);
    assert TokenOf(c, it, x);
    CodeHead(s, c.keys);
    var tok, below := Code(s, c.keys)[0], Code(s, c.keys)[1..];
    assert Code(s, c.keys) + r == [tok] + (below + r);
    AcceptsRange(c.q, k, b, tok, below + r);
    ValidIffInLimits(c.q.numbers, c.keys, c.rd.parse, c.rd.limits(it.e), s);
    if s.kids == [] {
      assert below + r == r;
    }
  }

  lemma RangeIsNew(c: Asked, k: nat, b: Q.Substitution, f: map<string, Shape>)
    requires QueryOf(c) && Bound(c, k, b, f) && k < |c.items| && c.items[k].e.IsRange()
    ensures |c.q.expr| == |c.items| && c.q.expr[k].RANGE? && c.q.expr[k].special == |b|
  {
    hide Code, Codable, NumbersAgree, TokenOf;
    assert KindAsMeant(c.items[k], c.q.expr[k]);
    assert Q.NumberedAt(c.q.expr, k);
  }

  lemma CodeHead(s: Shape, keys: seq<string>)
    requires Codable(s, keys)
    ensures s.sym.Fixed? && s.sym.meaning in keys && |s.kids| <= ENC_TOK_MAX_ARITY
    ensures Code(s, keys) != [] && Code(s, keys)[0] == MeaningToken(s.sym.meaning, |s.kids|, keys)
    ensures s.kids == [] ==> Code(s, keys) == [Code(s, keys)[0]]
  {
  }

  lemma ValidIffInLimits(numbers: map<MeaningId, real>, keys: seq<string>, parse: string -> Option<real>,
                         limits: Q.Interval, s: Shape)
    requires NumbersAgree(numbers, keys, parse) && s.sym.Fixed? && s.sym.meaning in keys
             && |s.kids| <= ENC_TOK_MAX_ARITY
    ensures Q.ValidSubst(numbers, limits, MeaningToken(s.sym.meaning, |s.kids|, keys)) <==> InLimits(limits, s, parse)
  {
    hide NumberOf, NumberIn;
  }

  /** A constant takes exactly its meaning and its number of children. */
  lemma OneConstant(c: Asked, k: nat, s: Shape, r: seq<Token>, b: Q.Substitution, f: map<string, Shape>)
    requires QueryOf(c) && Bound(c, k, b, f) && k < |c.items| && IsConstant(c.items[k])
    requires s.sym.Fixed? && s.sym.meaning in c.keys && |s.kids| <= ENC_TOK_MAX_ARITY
    ensures Bound(c, k + 1, b, f)
    ensures Q.Accepts(c.q, k, b, [MeaningToken(s.sym.meaning, |s.kids|, c.keys)] + r)
       <==> && s.sym == Fixed(Translated(c.items[k], c.rd.known, c.rd.renameCi)) && |s.kids| == |c.items[k].e.kids|
            && Q.Accepts(c.q, k + 1, b, r)
  {
    hide Code, Codable, IdsFit, MeaningToken, NumbersAgree, Q.Accepts, Translated;
    var it := c.items[k];
    assert TokenOf(c, it, c.q.expr[k]);
    AcceptsConst(c.q, k, b, MeaningToken(s.sym.meaning, |s.kids|, c.keys), r);
    MeaningTokenInjective(s.sym.meaning, |s.kids|, Translated(it, c.rd.known, c.rd.renameCi), |it.e.kids|, c.keys);
    BoundOn(c, k, b, f);
  }

  /** What is accepted is an instance. */
  lemma {:induction false} AcceptedArePut(c: Asked, k: nat, qs: seq<Expr>, head: bool, ss: seq<Shape>,
                                          rest: seq<Token>, b: Q.Substitution, f: map<string, Shape>)
      returns (b': Q.Substitution, f': map<string, Shape>)
    requires QueryOf(c) && Stands(c.items, k, qs, head) && k <= |c.items| && Reaches(c, k, b, f)
    requires |ss| == |qs| && AllCodable(ss, c.keys) && Q.Accepts(c.q, k, b, CodeAll(ss, c.keys) + rest)
    ensures var k' := k + |FlatAll(qs, head)|;
            && k' <= |c.items| && Reaches(c, k', b', f') && Extends(f', f) && Q.Accepts(c.q, k', b', rest)
            && PutsAll(qs, head, ss, f', c.rd)
    decreases |FlatAll(qs, head)|
  {
    hide Bound, OnlyMet, QueryOf, Stands, Q.Accepts, Puts, Codable, Code, MeaningToken, FlatAll;
    if qs == [] {
      b', f' := b, f;
      NothingLeft(ss, rest, head, c.keys);
    } else {
      var x, r := CodesHead(ss, rest, c.keys);
      StandsStep(c.items, k, qs, head);
      var apply, n := qs[0].tag == "apply", |FlatAll(qs[0].kids, qs[0].tag == "apply")|;
      var b1, f1;
      if IsConstant(c.items[k]) {
        OneConstant(c, k, ss[0], CodeAll(ss[0].kids, c.keys) + r, b, f);
        MetMore(c.items, k, f);
        b1, f1 := AcceptedArePut(c, k + 1, qs[0].kids, apply, ss[0].kids, r, b, f);
        PutsNode(qs[0], head, ss[0], f1, c.rd);
      } else {
        ChildlessAt(c, k);
        if qs[0].IsVar() {
          b1, f1 := OneVariable(c, k, head, ss[0], r, b, f);
        } else {
          OneRange(c, k, head, ss[0], r, b, f);
          MetMore(c.items, k, f);
          b1, f1 := b + [Code(ss[0], c.keys)], f;
        }
      }
      b', f' := AcceptedArePut(c, k + 1 + n, qs[1..], false, ss[1..], rest, b1, f1);
      PutsMore(qs[0], head, ss[0], f1, f', c.rd);
      PutsCons(qs, head, ss, f', c.rd);
    }
  }

  lemma NothingLeft(ss: seq<Shape>, rest: seq<Token>, head: bool, keys: seq<string>)
    ensures FlatAll([], head) == []
    ensures ss == [] ==> CodeAll(ss, keys) + rest == rest
  {
  }

  lemma ChildlessAt(c: Asked, k: nat)
    requires QueryOf(c) && k < |c.items| && !IsConstant(c.items[k])
    ensures c.items[k].e.kids == [] && FlatAll(c.items[k].e.kids, c.items[k].e.tag == "apply") == []
  {
    hide Code, Codable, NumbersAgree;
    assert TokenOf(c, c.items[k], c.q.expr[k]);
  }

  lemma PutsNode(q: Expr, head: bool, s: Shape, f: map<string, Shape>, rd: Reading)
    requires !q.IsVar() && !q.IsRange()
    requires s.sym == Fixed(Translated(Item(q, head), rd.known, rd.renameCi)) && |s.kids| == |q.kids|
    ensures Puts(q, head, s, f, rd) <==> PutsAll(q.kids, q.tag == "apply", s.kids, f, rd)
  {
  }

  lemma PutsCons(qs: seq<Expr>, head: bool, ss: seq<Shape>, f: map<string, Shape>, rd: Reading)
    requires qs != [] && |ss| == |qs|
    ensures PutsAll(qs, head, ss, f, rd) <==> Puts(qs[0], head, ss[0], f, rd) && PutsAll(qs[1..], false, ss[1..], f, rd)
  {
    hide Puts;
    if Puts(qs[0], head, ss[0], f, rd) && PutsAll(qs[1..], false, ss[1..], f, rd) {
      forall i | 0 <= i < |qs|
        ensures Puts(qs[i], head && i == 0, ss[i], f, rd)
      {
        if i > 0 {
          assert Puts(qs[1..][i - 1], false && i - 1 == 0, ss[1..][i - 1], f, rd);
        }
      }
    }
    if PutsAll(qs, head, ss, f, rd) {
      assert Puts(qs[0], head && 0 == 0, ss[0], f, rd);
      forall i | 0 <= i < |qs| - 1
        ensures Puts(qs[1..][i], false && i == 0, ss[1..][i], f, rd)
      {
        assert Puts(qs[i + 1], head && i + 1 == 0, ss[i + 1], f, rd);
      }
    }
  }

  /** Instances are accepted. */
  lemma {:induction false} PutAreAccepted(c: Asked, k: nat, qs: seq<Expr>, head: bool, ss: seq<Shape>,
                                          rest: seq<Token>, b: Q.Substitution, f: map<string, Shape>)
      returns (b': Q.Substitution)
    requires QueryOf(c) && Stands(c.items, k, qs, head) && Bound(c, k, b, f)
    requires AllCodable(ss, c.keys) && PutsAll(qs, head, ss, f, c.rd)
    ensures var k' := k + |FlatAll(qs, head)|;
            && Bound(c, k', b', f)
            && (Q.Accepts(c.q, k', b', rest) ==> Q.Accepts(c.q, k, b, CodeAll(ss, c.keys) + rest))
    decreases |FlatAll(qs, head)|
  {
    hide Bound, QueryOf, Stands, Q.Accepts, Puts, PutsAll, Codable, Code, MeaningToken, FlatAll;
    SameSize(qs, head, ss, f, c.rd);
    if qs == [] {
      b' := b;
      NothingLeft(ss, rest, head, c.keys);
    } else {
      var x, r := CodesHead(ss, rest, c.keys);
      StandsStep(c.items, k, qs, head);
      PutsCons(qs, head, ss, f, c.rd);
      var apply, n := qs[0].tag == "apply", |FlatAll(qs[0].kids, qs[0].tag == "apply")|;
      var b1;
      if IsConstant(c.items[k]) {
        SameMeaning(qs[0], head, ss[0], f, c.rd);
        OneConstant(c, k, ss[0], CodeAll(ss[0].kids, c.keys) + r, b, f);
        PutsNode(qs[0], head, ss[0], f, c.rd);
        b1 := PutAreAccepted(c, k + 1, qs[0].kids, apply, ss[0].kids, r, b, f);
      } else {
        ChildlessAt(c, k);
        if qs[0].IsVar() {
          b1 := PutVariable(c, k, head, ss[0], r, b, f);
        } else {
          OneRange(c, k, head, ss[0], r, b, f);
          b1 := b + [Code(ss[0], c.keys)];
        }
      }
      b' := PutAreAccepted(c, k + 1 + n, qs[1..], false, ss[1..], rest, b1, f);
    }
  }

  lemma SameSize(qs: seq<Expr>, head: bool, ss: seq<Shape>, f: map<string, Shape>, rd: Reading)
    requires PutsAll(qs, head, ss, f, rd)
    ensures |ss| == |qs|
  {
  }

  lemma SameMeaning(q: Expr, head: bool, s: Shape, f: map<string, Shape>, rd: Reading)
    requires Puts(q, head, s, f, rd) && !q.IsVar() && !q.IsRange()
    ensures s.sym == Fixed(Translated(Item(q, head), rd.known, rd.renameCi)) && |s.kids| == |q.kids|
  {
  }

  lemma PutVariable(c: Asked, k: nat, head: bool, s: Shape, r: seq<Token>, b: Q.Substitution, f: map<string, Shape>)
      returns (b': Q.Substitution)
    requires QueryOf(c) && k < |c.items| && Bound(c, k, b, f) && c.items[k].e.IsVar()
    requires Codable(s, c.keys) && Puts(c.items[k].e, head, s, f, c.rd)
    ensures Bound(c, k + 1, b', f)
    ensures Q.Accepts(c.q, k + 1, b', r) ==> Q.Accepts(c.q, k, b, Code(s, c.keys) + r)
  {
    hide Code, Codable, Bound, TokenOf, Q.Accepts, NumbersAgree;
    BoundSize(c, k, b, f);
    assert KindAsMeant(c.items[k], c.q.expr[k]);
    if c.q.expr[k].special < |b| {
      OldVariable(c, k, b, f);
      AcceptsOld(c.q, k, b, Code(s, c.keys), r);
      BoundOn(c, k, b, f);
      b' := b;
    } else {
      BindNew(c, k, b, f, f, s);
      OneCode(s, c.keys);
      AcceptsNew(c.q, k, b, Code(s, c.keys), r);
      b' := b + [Code(s, c.keys)];
    }
  }

  // ---------------------------------------------------------------- instances of expressions and of queries

  lemma StartOfQuery(c: Asked, e: Expr, head: bool)
    requires c.items == Flat(e, head) && QueryOf(c)
    ensures Stands(c.items, 0, [e], head) && |FlatAll([e], head)| == |c.items|
    ensures Reaches(c, 0, [], map[])
  {
    FlatOne(e, head);
    assert c.items[0..0 + |c.items|] == c.items;
  }

  /** The code of a formula is an instance of the query exactly when the formula is an instance of
      the query's expression. */
  lemma InstancesAgree(c: Asked, e: Expr, head: bool, s: Shape)
    requires c.items == Flat(e, head) && QueryOf(c) && Q.WellFormedQuery(c.q) && Codable(s, c.keys)
    ensures Q.IsInstance(c.q, Code(s, c.keys)) <==> IsInstance(e, head, s, c.rd)
  {
    hide Reaches, Bound, QueryOf, Stands, Puts, Codable, Code, Flat, FlatAll, Q.WellFormedQuery, Q.IsInstance;
    StartOfQuery(c, e, head);
    OneCode(s, c.keys);
    Q.AcceptsIffInstance(c.q, Code(s, c.keys));
    assert Code(s, c.keys) + [] == Code(s, c.keys);
    if Q.Accepts(c.q, 0, [], Code(s, c.keys)) {
      var b', f' := AcceptedArePut(c, 0, [e], head, [s], [], [], map[]);
      assert Puts([e][0], head && 0 == 0, [s][0], f', c.rd);
    }
    forall f: map<string, Shape> | Puts(e, head, s, f, c.rd)
      ensures Q.Accepts(c.q, 0, [], Code(s, c.keys))
    {
      StartBound(c, f);
      var b' := PutAreAccepted(c, 0, [e], head, [s], [], [], f);
      AtEnd(c, b');
    }
  }

  lemma StartBound(c: Asked, f: map<string, Shape>)
    requires QueryOf(c)
    ensures Bound(c, 0, [], f)
  {
  }

  lemma AtEnd(c: Asked, b: Q.Substitution)
    requires QueryOf(c)
    ensures |c.items| == |c.q.expr| && Q.Accepts(c.q, |c.items|, b, [])
  {
  }

  // ---------------------------------------------------------------- encoded expressions are queries

  /** Variables and ranges have no children. */
  ghost predicate Childless(items: seq<Item>)
  {
    forall i | 0 <= i < |items| && !IsConstant(items[i]) :: items[i].e.kids == []
  }

  ghost predicate KindsAsMeant(items: seq<Item>, expr: seq<Q.Item>)
  {
    |expr| == |items| && forall i | 0 <= i < |items| :: KindAsMeant(items[i], expr[i])
  }

  lemma {:induction false} ShapedFrom(items: seq<Item>, expr: seq<Q.Item>, k: nat, qs: seq<Expr>, head: bool, need: nat)
    requires Stands(items, k, qs, head) && KindsAsMeant(items, expr) && Childless(items)
    requires k + |FlatAll(qs, head)| <= |expr| && Q.Shaped(expr, k + |FlatAll(qs, head)|, need)
    ensures Q.Shaped(expr, k, need + |qs|)
    decreases |FlatAll(qs, head)|
  {
    hide Stands, FlatAll, KindAsMeant;
    if qs == [] {
      NoItems(head);
    } else {
      StandsStep(items, k, qs, head);
      var apply, n := qs[0].tag == "apply", |FlatAll(qs[0].kids, qs[0].tag == "apply")|;
      ShapedFrom(items, expr, k + 1 + n, qs[1..], false, need);
      ShapedFrom(items, expr, k + 1, qs[0].kids, apply, need + |qs| - 1);
      ArityAsMeant(items[k], expr[k]);
    }
  }

  lemma NoItems(head: bool)
    ensures FlatAll([], head) == []
  {
  }

  lemma ArityAsMeant(it: Item, x: Q.Item)
    requires KindAsMeant(it, x) && (IsConstant(it) || it.e.kids == [])
    ensures |it.e.kids| == if x.CONST? then x.arity else 0
  {
  }

  /** The prepared query of an expression whose variables and ranges have no children is one term. */
  lemma ReadIsShaped(e: Expr, head: bool, expr: seq<Q.Item>)
    requires KindsAsMeant(Flat(e, head), expr) && Childless(Flat(e, head))
    ensures Q.Shaped(expr, 0, 1)
  {
    hide Childless, KindAsMeant, Flat, FlatAll;
    var items := Flat(e, head);
    FlatOne(e, head);
    assert items[0..0 + |items|] == items;
    ShapedFrom(items, expr, 0, [e], head, 0);
  }

  lemma FlatOne(e: Expr, head: bool)
    ensures FlatAll([e], head) == Flat(e, head)
  {
    assert [e][1..] == [];
    assert FlatAll([e], head) == Flat(e, head) + [];
  }

  /** The bounds that the encoder collects, under the ids of the ranges. */
  function RangeBounds(items: seq<Item>, limits: Expr -> Q.Interval): map<MeaningId, Q.Interval>
    decreases |items|
  {
    if items == [] then map[]
    else
      var before, it := RangeBounds(Init(items), limits), Last(items);
      var id := Id24(RANGE_ID_MIN + Ranges(Init(items)));
      if it.e.IsRange() && id !in before then before[id := limits(it.e)] else before
  }

  /** As long as there is an id for each range, every range has its bounds. */
  lemma {:induction false} BoundsOfRange(items: seq<Item>, limits: Expr -> Q.Interval, i: nat)
    requires Ranges(items) <= 32 && i < |items| && items[i].e.IsRange()
    ensures var id := Id24(RANGE_ID_MIN + Ranges(items[..i]));
            id in RangeBounds(items, limits) && RangeBounds(items, limits)[id] == limits(items[i].e)
    decreases |items|
  {
    var n := |items| - 1;
    assert items[..n] == Init(items);
    if i < n {
      assert Init(items)[..i] == items[..i];
      BoundsOfRange(Init(items), limits, i);
    } else {
      NoLaterBounds(Init(items), limits);
    }
  }

  lemma {:induction false} NoLaterBounds(items: seq<Item>, limits: Expr -> Q.Interval)
    requires Ranges(items) <= 32
    ensures forall id | id in RangeBounds(items, limits) :: id < RANGE_ID_MIN + Ranges(items)
    decreases |items|
  {
    if items != [] {
      NoLaterBounds(Init(items), limits);
    }
  }

  /** What the query encoder and the preparation deliver. */
  lemma PreparedIsQuery(c: Asked, e: Expr, head: bool, tokens: seq<Token>, vars: seq<string>)
    requires c.items == Flat(e, head) && c.q.bounds == RangeBounds(c.items, c.rd.limits)
    requires Coded(c.items, tokens, c.rd.known, c.keys, vars, c.rd.renameCi) && Prepared(tokens, c.q.expr)
    requires Childless(c.items) && EnoughIds(c.items, vars)
    ensures Q.WellFormedQuery(c.q)
    ensures InBands(c.items, vars) && NumbersAgree(c.q.numbers, c.keys, c.rd.parse) ==> QueryOf(c)
  {
    hide Coded, Flat, InBands, EnoughIds, Ranges, Q.Numbered, ReadAsMeant, IdsFit, TokenOf, Q.Shaped, Childless,
         NumbersAgree, RangesApart, RangeBounds, KindAsMeant;
    PreparedNumbered(tokens, c.q.expr);
    KindsRead(c.items, tokens, c.rd.known, c.keys, vars, c.rd.renameCi, c.q.expr);
    ReadIsShaped(e, head, c.q.expr);
    CodedFits(c, tokens, vars);
    forall i | 0 <= i < |c.items|
      ensures TokenOf(c, c.items[i], c.q.expr[i]) && (c.q.expr[i].RANGE? ==> c.q.expr[i].meaningId in c.q.bounds)
    {
      TokenIsMeant(c, tokens, vars, i);
    }
    if InBands(c.items, vars) {
      InBandsRead(c.items, tokens, c.rd.known, c.keys, vars, c.rd.renameCi, c.q.expr);
    }
  }

  lemma PreparedNumbered(tokens: seq<Token>, expr: seq<Q.Item>)
    requires Prepared(tokens, expr)
    ensures Q.Numbered(expr) && RangesApart(expr)
  {
    hide Q.Numbered;
  }

  lemma CodedFits(c: Asked, tokens: seq<Token>, vars: seq<string>)
    requires Coded(c.items, tokens, c.rd.known, c.keys, vars, c.rd.renameCi)
    ensures IdsFit(c.keys)
  {
  }

  lemma TokenIsMeant(c: Asked, tokens: seq<Token>, vars: seq<string>, i: nat)
    requires c.q.bounds == RangeBounds(c.items, c.rd.limits)
    requires Coded(c.items, tokens, c.rd.known, c.keys, vars, c.rd.renameCi) && Prepared(tokens, c.q.expr)
    requires KindsAsMeant(c.items, c.q.expr) && Childless(c.items) && EnoughIds(c.items, vars) && i < |c.items|
    ensures TokenOf(c, c.items[i], c.q.expr[i]) && (c.q.expr[i].RANGE? ==> c.q.expr[i].meaningId in c.q.bounds)
  {
    hide Q.Numbered, NumberOf, AddAll, VarNames, AnonVars, Ranges, SameVariable, RangeBounds;
    assert KindAsMeant(c.items[i], c.q.expr[i]);
    if IsConstant(c.items[i]) {
      assert tokens[i].id != KEY_NOT_FOUND;
      KnownMeaning(Translated(c.items[i], c.rd.known, c.rd.renameCi), c.keys);
    } else if c.items[i].e.IsRange() {
      RangeToken(c.items, tokens, c.rd.known, c.keys, vars, c.rd.renameCi, i);
      BoundsOfRange(c.items, c.rd.limits, i);
    }
  }

  lemma KnownMeaning(meaning: string, keys: seq<string>)
    requires ConstantId(NumberOf(keys, meaning)) != KEY_NOT_FOUND
    ensures meaning in keys
  {
  }
}
