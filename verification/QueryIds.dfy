/** The id bands of encoded variables: when an encoded query is searched for as it was meant. */
module QueryIds {
  import opened Tokens
  import opened Expressions
  import opened ExpressionEncoders
  import opened AlphaEncoding
  import opened IdDictionaries
  import opened Numberings
  import opened Wrappers
  import opened SearchContexts
  import Q = Queries

  ghost predicate SameName(a: Item, b: Item)
    requires a.e.IsVar() && b.e.IsVar()
  {
    a.e.VarName() == b.e.VarName() && a.e.VarName() != ""
  }

  /** Variables, ranges and constants are read as such, and two variables are the same special
      exactly when they have the same name. */
  ghost predicate ReadAsMeant(items: seq<Item>, expr: seq<Q.Item>)
  {
    && |expr| == |items|
    && (forall i | 0 <= i < |items| :: KindAsMeant(items[i], expr[i]))
    && forall i, j | 0 <= i < j < |items| && items[i].e.IsVar() && items[j].e.IsVar() ::
         !expr[i].CONST? && !expr[j].CONST? && (expr[i].special == expr[j].special <==> SameName(items[i], items[j]))
  }

  ghost predicate KindAsMeant(it: Item, q: Q.Item)
  {
    if it.e.IsVar() then q.QVAR? else if it.e.IsRange() then q.RANGE? else q.CONST? && q.arity == |it.e.kids|
  }

  /** The id of a name. */
  function NameId(vars: seq<string>, name: string): nat {
    HVAR_ID_MIN + NumberOf(vars, name)
  }

  predicate IsAnonId(id: nat) {
    ANON_HVAR_ID_MIN <= id < ANON_HVAR_ID_MAX || ANON_QVAR_ID_MIN <= id < ANON_QVAR_ID_MAX
  }

  /** There are ids for all names, anonymous variables and ranges. */
  ghost predicate EnoughIds(items: seq<Item>, vars: seq<string>)
  {
    |vars| <= 127 && AnonVars(items) <= 96 && Ranges(items) <= 32
  }

  /** What a caller can count: names, anonymous variables and ranges stay in their bands, names and
      anonymous variables do not meet outside the anonymous bands, and no name is repeated in one. */
  ghost predicate InBands(items: seq<Item>, vars: seq<string>)
  {
    && EnoughIds(items, vars)
    && (|vars| < 63 || AnonVars(items) < 32)
    && forall i, j | 0 <= i < j < |items| && items[i].e.IsVar() && items[j].e.IsVar() && SameName(items[i], items[j]) ::
         !IsAnonId(NameId(vars, items[i].e.VarName()))
  }

  /** The encoder's tokens for a query whose meanings are known. */
  ghost predicate Coded(items: seq<Item>, tokens: seq<Token>, known: seq<string>, keys: seq<string>, vars: seq<string>,
                        renameCi: bool)
  {
    && Encodes(tokens, items, known, keys, vars, renameCi)
    && vars == AddAll([], VarNames(items)) && NoRepeats(vars)
    && IdsFit(keys) && !SomeUnknown(items, tokens)
  }

  // ---------------------------------------------------------------- counts

  lemma {:induction false} CountsGrow(items: seq<Item>, i: nat)
    requires i <= |items|
    ensures AnonVars(items[..i]) <= AnonVars(items) && Ranges(items[..i]) <= Ranges(items)
    decreases |items|
  {
    if i == |items| {
      assert items[..i] == items;
    } else {
      assert Init(items)[..i] == items[..i];
      CountsGrow(Init(items), i);
    }
  }

  lemma CountsBefore(items: seq<Item>, i: nat, j: nat)
    requires i < j <= |items|
    ensures items[i].e.IsVar() && items[i].e.VarName() == "" ==> AnonVars(items[..i]) < AnonVars(items[..j])
    ensures items[i].e.IsRange() ==> Ranges(items[..i]) < Ranges(items[..j])
  {
    var upTo := items[..i + 1];
    assert Init(upTo) == items[..i] && Last(upTo) == items[i];
    assert items[..j][..i + 1] == upTo;
    CountsGrow(items[..j], i + 1);
  }

  /** Every anonymous variable below the count is there. */
  lemma {:induction false} AnonVarAt(items: seq<Item>, k: nat) returns (i: nat)
    requires k < AnonVars(items)
    ensures i < |items| && items[i].e.IsVar() && items[i].e.VarName() == "" && AnonVars(items[..i]) == k
    decreases |items|
  {
    if k < AnonVars(Init(items)) {
      i := AnonVarAt(Init(items), k);
      assert Init(items)[..i] == items[..i];
    } else {
      i := |items| - 1;
      assert items[..i] == Init(items);
    }
  }

  lemma {:induction false} RangeAt(items: seq<Item>, k: nat) returns (i: nat)
    requires k < Ranges(items)
    ensures i < |items| && items[i].e.IsRange() && Ranges(items[..i]) == k
    decreases |items|
  {
    if k < Ranges(Init(items)) {
      i := RangeAt(Init(items), k);
      assert Init(items)[..i] == items[..i];
    } else {
      i := |items| - 1;
      assert items[..i] == Init(items);
    }
  }

  lemma {:induction false} NameInItems(items: seq<Item>, name: string) returns (i: nat)
    requires name in VarNames(items)
    ensures i < |items| && items[i].e.IsVar() && items[i].e.VarName() == name != ""
    decreases |items|
  {
    if name in VarNames(Init(items)) {
      i := NameInItems(Init(items), name);
    } else {
      i := |items| - 1;
    }
  }

  lemma {:induction false} AddedFrom(list: seq<string>, xs: seq<string>, x: string)
    requires x in AddAll(list, xs)
    ensures x in list || x in xs
    decreases |xs|
  {
    if xs != [] && x in AddAll(list, xs[..|xs| - 1]) {
      AddedFrom(list, xs[..|xs| - 1], x);
    }
  }

  /** The n-th name occurs. */
  lemma NameAt(items: seq<Item>, vars: seq<string>, n: nat) returns (i: nat)
    requires vars == AddAll([], VarNames(items)) && NoRepeats(vars) && n < |vars|
    ensures i < |items| && items[i].e.IsVar() && items[i].e.VarName() != ""
            && NameId(vars, items[i].e.VarName()) == n + 2
  {
    hide AddAll, VarNames, NumberOf, NoRepeats;
    AddedFrom([], VarNames(items), vars[n]);
    i := NameInItems(items, vars[n]);
    NumberUnique(vars, n);
  }

  // ---------------------------------------------------------------- ids

  /** The id of a variable. */
  ghost function VarId(items: seq<Item>, vars: seq<string>, i: nat): nat
    requires i < |items| && items[i].e.IsVar()
  {
    if items[i].e.VarName() == "" then ANON_HVAR_ID_MIN + AnonVars(items[..i]) else NameId(vars, items[i].e.VarName())
  }

  lemma CodedSize(items: seq<Item>, tokens: seq<Token>, known: seq<string>, keys: seq<string>, vars: seq<string>,
                  renameCi: bool)
    requires Coded(items, tokens, known, keys, vars, renameCi)
    ensures |tokens| == |items|
  {
  }

  lemma VarToken(items: seq<Item>, tokens: seq<Token>, known: seq<string>, keys: seq<string>, vars: seq<string>,
                 renameCi: bool, i: nat)
    requires Coded(items, tokens, known, keys, vars, renameCi) && i < |items| && items[i].e.IsVar()
    ensures |tokens| == |items| && tokens[i] == Token(Id24(VarId(items, vars, i)), 1)
  {
    hide NumberOf, AnonVars, AddAll, VarNames, Translated;
  }

  lemma RangeToken(items: seq<Item>, tokens: seq<Token>, known: seq<string>, keys: seq<string>, vars: seq<string>,
                   renameCi: bool, i: nat)
    requires Coded(items, tokens, known, keys, vars, renameCi) && i < |items| && !items[i].e.IsVar()
             && items[i].e.IsRange()
    ensures |tokens| == |items| && tokens[i] == Token(Id24(RANGE_ID_MIN + Ranges(items[..i])), 1)
  {
    hide NumberOf, Ranges, AddAll, VarNames, Translated;
  }

  lemma ConstantToken(items: seq<Item>, tokens: seq<Token>, known: seq<string>, keys: seq<string>, vars: seq<string>,
                      renameCi: bool, i: nat)
    requires Coded(items, tokens, known, keys, vars, renameCi) && i < |items| && IsConstant(items[i])
    ensures |tokens| == |items| && tokens[i].arity == |items[i].e.kids|
    ensures !tokens[i].IsVar() && !tokens[i].IsRange()
  {
    hide NumberOf, AddAll, VarNames, Translated, AnonVars, Ranges;
    assert tokens[i].id != KEY_NOT_FOUND;
  }

  lemma VarIdBound(items: seq<Item>, vars: seq<string>, i: nat)
    requires i < |items| && items[i].e.IsVar()
    requires vars == AddAll([], VarNames(items)) && EnoughIds(items, vars)
    ensures VarId(items, vars, i) <= VAR_ID_MAX
  {
    hide NumberOf, AnonVars, AddAll, VarNames;
    CountsBefore(items, i, |items|);
    assert items[..|items|] == items;
  }

  /** Equal ids outside the anonymous bands mean equal names. */
  lemma SameIdIffSameName(items: seq<Item>, vars: seq<string>, i: nat, j: nat)
    requires i < j < |items| && items[i].e.IsVar() && items[j].e.IsVar()
    requires vars == AddAll([], VarNames(items)) && NoRepeats(vars) && InBands(items, vars)
    requires forall k | k == i || k == j :: items[k].e.VarName() != "" ==> items[k].e.VarName() in vars
    ensures VarId(items, vars, i) == VarId(items, vars, j) && !IsAnonId(VarId(items, vars, i)) <==>
              SameName(items[i], items[j])
  {
    hide AnonVars, AddAll, VarNames, Ranges;
    var x, y := items[i].e.VarName(), items[j].e.VarName();
    CountsBefore(items, i, |items|);
    CountsBefore(items, j, |items|);
    CountsBefore(items, i, j);
    assert items[..|items|] == items;
    if x != "" && y != "" && NumberOf(vars, x) == NumberOf(vars, y) {
      NumberInjective(vars, x, y);
    }
  }

  lemma NamesKnown(items: seq<Item>, vars: seq<string>, i: nat)
    requires vars == AddAll([], VarNames(items)) && i < |items| && items[i].e.IsVar() && items[i].e.VarName() != ""
    ensures items[i].e.VarName() in vars
  {
    hide AddAll, VarNames;
    AllCovered(items, false, i);
    NothingRepeats();
    AddAllKeeps([], VarNames(items));
  }

  // ---------------------------------------------------------------- the bands are right

  lemma InBandsRead(items: seq<Item>, tokens: seq<Token>, known: seq<string>, keys: seq<string>, vars: seq<string>,
                    renameCi: bool, expr: seq<Q.Item>)
    requires Coded(items, tokens, known, keys, vars, renameCi) && Prepared(tokens, expr) && InBands(items, vars)
    ensures ReadAsMeant(items, expr)
  {
    hide Q.Numbered, NumberOf, AnonVars, Ranges, AddAll, VarNames, Encodes, SomeUnknown, VarId;
    KindsRead(items, tokens, known, keys, vars, renameCi, expr);
    forall i, j | 0 <= i < j < |items| && items[i].e.IsVar() && items[j].e.IsVar()
      ensures !expr[i].CONST? && !expr[j].CONST?
              && (expr[i].special == expr[j].special <==> SameName(items[i], items[j]))
    {
      assert KindAsMeant(items[i], expr[i]) && KindAsMeant(items[j], expr[j]);
      InBandsPair(items, tokens, known, keys, vars, renameCi, i, j);
    }
  }

  /** With an id for each, variables, ranges and constants are told apart. */
  lemma KindsRead(items: seq<Item>, tokens: seq<Token>, known: seq<string>, keys: seq<string>, vars: seq<string>,
                  renameCi: bool, expr: seq<Q.Item>)
    requires Coded(items, tokens, known, keys, vars, renameCi) && Prepared(tokens, expr) && EnoughIds(items, vars)
    ensures |expr| == |items| && forall i | 0 <= i < |items| :: KindAsMeant(items[i], expr[i])
  {
    hide Q.Numbered, NumberOf, AnonVars, Ranges, AddAll, VarNames, Encodes, SomeUnknown, VarId;
    CodedSize(items, tokens, known, keys, vars, renameCi);
    forall i | 0 <= i < |items|
      ensures KindAsMeant(items[i], expr[i])
    {
      if items[i].e.IsVar() {
        VarToken(items, tokens, known, keys, vars, renameCi, i);
        VarIdBound(items, vars, i);
      } else if items[i].e.IsRange() {
        RangeToken(items, tokens, known, keys, vars, renameCi, i);
        CountsBefore(items, i, |items|);
        assert items[..|items|] == items;
      } else {
        ConstantToken(items, tokens, known, keys, vars, renameCi, i);
      }
    }
  }

  lemma InBandsPair(items: seq<Item>, tokens: seq<Token>, known: seq<string>, keys: seq<string>, vars: seq<string>,
                    renameCi: bool, i: nat, j: nat)
    requires Coded(items, tokens, known, keys, vars, renameCi) && InBands(items, vars)
    requires i < j < |items| && items[i].e.IsVar() && items[j].e.IsVar()
    ensures |tokens| == |items| && (SameVariable(tokens[i], tokens[j]) <==> SameName(items[i], items[j]))
  {
    hide NumberOf, AnonVars, Ranges, AddAll, VarNames, Encodes, SomeUnknown, VarId;
    CodedSize(items, tokens, known, keys, vars, renameCi);
    forall k | k == i || k == j
      ensures items[k].e.VarName() != "" ==> items[k].e.VarName() in vars
      ensures tokens[k].id == VarId(items, vars, k) <= VAR_ID_MAX
    {
      VarToken(items, tokens, known, keys, vars, renameCi, k);
      VarIdBound(items, vars, k);
      if items[k].e.VarName() != "" {
        NamesKnown(items, vars, k);
      }
    }
    SameIdIffSameName(items, vars, i, j);
  }

  // ---------------------------------------------------------------- outside the bands

  /** One more name, anonymous variable or range than there are ids is read as something else. */
  lemma TooManyMisread(items: seq<Item>, tokens: seq<Token>, known: seq<string>, keys: seq<string>, vars: seq<string>,
                       renameCi: bool, expr: seq<Q.Item>)
    requires Coded(items, tokens, known, keys, vars, renameCi) && Prepared(tokens, expr)
    requires !EnoughIds(items, vars)
    ensures !ReadAsMeant(items, expr)
  {
    hide Q.Numbered, NumberOf, AnonVars, Ranges, AddAll, VarNames, Encodes, SomeUnknown, NameId;
    var i;
    if |vars| > 127 {
      i := NameAt(items, vars, 127);
      VarToken(items, tokens, known, keys, vars, renameCi, i);
    } else if AnonVars(items) > 96 {
      i := AnonVarAt(items, 96);
      VarToken(items, tokens, known, keys, vars, renameCi, i);
    } else {
      i := RangeAt(items, 32);
      RangeToken(items, tokens, known, keys, vars, renameCi, i);
    }
    assert !KindAsMeant(items[i], expr[i]);
  }

  /** The 63rd name and the 32nd anonymous variable get the same id. */
  lemma MetAtSixtyFour(items: seq<Item>, tokens: seq<Token>, known: seq<string>, keys: seq<string>, vars: seq<string>,
                       renameCi: bool, expr: seq<Q.Item>)
    requires Coded(items, tokens, known, keys, vars, renameCi) && Prepared(tokens, expr)
    requires |vars| >= 63 && AnonVars(items) >= 32
    ensures !ReadAsMeant(items, expr)
  {
    hide Q.Numbered, NumberOf, AnonVars, Ranges, AddAll, VarNames, Encodes, SomeUnknown, NameId;
    var a := NameAt(items, vars, 62);
    var b := AnonVarAt(items, 31);
    VarToken(items, tokens, known, keys, vars, renameCi, a);
    VarToken(items, tokens, known, keys, vars, renameCi, b);
    var i, j := if a < b then a else b, if a < b then b else a;
    assert SameVariable(tokens[i], tokens[j]) && !SameName(items[i], items[j]);
  }

  lemma RepeatedInBand(items: seq<Item>, tokens: seq<Token>, known: seq<string>, keys: seq<string>, vars: seq<string>,
                       renameCi: bool, expr: seq<Q.Item>, i: nat, j: nat)
    requires Coded(items, tokens, known, keys, vars, renameCi) && Prepared(tokens, expr)
    requires i < j < |items| && items[i].e.IsVar() && items[j].e.IsVar() && SameName(items[i], items[j])
    requires IsAnonId(NameId(vars, items[i].e.VarName()))
    ensures !ReadAsMeant(items, expr)
  {
    hide Q.Numbered, NumberOf, AnonVars, Ranges, AddAll, VarNames, Encodes, SomeUnknown, NameId;
    VarToken(items, tokens, known, keys, vars, renameCi, i);
    VarToken(items, tokens, known, keys, vars, renameCi, j);
    assert !SameVariable(tokens[i], tokens[j]) && !expr[i].CONST? && !expr[j].CONST?;
  }

  /** A prepared query is read as its expression means it exactly when its ids stay in their bands. */
  lemma ReadAsMeantIffInBands(items: seq<Item>, tokens: seq<Token>, known: seq<string>, keys: seq<string>,
                              vars: seq<string>, renameCi: bool, expr: seq<Q.Item>)
    requires Coded(items, tokens, known, keys, vars, renameCi) && Prepared(tokens, expr)
    ensures ReadAsMeant(items, expr) <==> InBands(items, vars)
  {
    hide Coded, Prepared, ReadAsMeant, NumberOf, AnonVars, Ranges, NameId;
    if InBands(items, vars) {
      InBandsRead(items, tokens, known, keys, vars, renameCi, expr);
    } else if !EnoughIds(items, vars) {
      TooManyMisread(items, tokens, known, keys, vars, renameCi, expr);
    } else if |vars| >= 63 && AnonVars(items) >= 32 {
      MetAtSixtyFour(items, tokens, known, keys, vars, renameCi, expr);
    } else {
      var i, j :| 0 <= i < j < |items| && items[i].e.IsVar() && items[j].e.IsVar() && SameName(items[i], items[j])
                  && IsAnonId(NameId(vars, items[i].e.VarName()));
      RepeatedInBand(items, tokens, known, keys, vars, renameCi, expr, i, j);
    }
  }

  /** Up to 31 names, 96 anonymous variables and 32 ranges are always safe. */
  lemma FewNamesInBands(items: seq<Item>, vars: seq<string>)
    requires |vars| <= 31 && AnonVars(items) <= 96 && Ranges(items) <= 32
    ensures InBands(items, vars)
  {
    hide NumberOf, AnonVars, Ranges;
  }
}
