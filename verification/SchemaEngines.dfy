/** The schema engine: truncation and decoding with explicit stacks. */
module SchemaEngines {
  import opened Tokens
  import opened Terms
  import opened Schemas
  import opened SchemaStacks
  import opened SchemaDecoding
  import opened SchemaHashes
  import opened SchemaClasses
  import opened Wrappers

  // ---------------------------------------------------------------- counting down

  /** The inner loop that follows a finished subterm. */
  method CountDown(unexplored: seq<nat>) returns (u: seq<nat>)
    requires forall i | 0 <= i < |unexplored| :: unexplored[i] > 0
    ensures u == Settle(unexplored)
  {
    u := unexplored;
    var parentExpr := 0;
    while u != [] && parentExpr == 0
      invariant forall i | 0 <= i < |u| :: u[i] > 0
      invariant if parentExpr == 0 then Settle(u) == Settle(unexplored) else u == Settle(unexplored)
      decreases parentExpr == 0, |u|
    {
      parentExpr := Last(u) - 1;
      u := Init(u);
      if parentExpr != 0 {
        u := u + [parentExpr];
      }
    }
  }

  method CountDownLevels(unexplored: seq<Level>) returns (u: seq<Level>)
    requires forall i | 0 <= i < |unexplored| :: unexplored[i].left > 0
    ensures u == SettleLevels(unexplored)
  {
    u := unexplored;
    var parentExpr := 0;
    while u != [] && parentExpr == 0
      invariant forall i | 0 <= i < |u| :: u[i].left > 0
      invariant if parentExpr == 0 then SettleLevels(u) == SettleLevels(unexplored) else u == SettleLevels(unexplored)
      decreases parentExpr == 0, |u|
    {
      parentExpr := Last(u).left - 1;
      u := Init(u);
      if parentExpr != 0 {
        u := u + [Level(parentExpr, false)];
      }
    }
  }

  // ---------------------------------------------------------------- rebuilding a tree

  /** The query variables for skipped children, numbered on. */
  method NewQvars(count: nat, n: nat) returns (qvars: seq<Cmml>, n': nat)
    ensures qvars == seq(count, i requires 0 <= i < count => Qvar(n + i)) && n' == n + count
  {
    qvars, n' := [], n;
    var i := 0;
    while i < count
      invariant 0 <= i <= count && n' == n + i
      invariant qvars == seq(i, j requires 0 <= j < i => Qvar(n + j))
    {
      qvars, n' := qvars + [Qvar(n')], n' + 1;
      i := i + 1;
    }
  }

  /** Counts down like CountDownLevels and moves up to the parent once for each step. */
  method CountDownTree(u: seq<Level>, path: seq<Cmml>, ghost dec: Decoder, ghost todo: Todo, ghost d: nat, ghost n: nat)
      returns (u': seq<Level>, path': seq<Cmml>)
    requires Busy(u, todo) && |path| == |u| + 1 && AreNodes(path)
    ensures u' == SettleLevels(u) && AreNodes(path')
    ensures DropDone(todo) == [] ==> u' == [] && |path'| == 1 && path'[0] == FinishBusy(dec, path, todo, d, n)
    ensures DropDone(todo) != [] ==>
              && Open(u', DropDone(todo)) && |path'| == |u'| && !Last(u').first
              && Finish(dec, path', DropDone(todo), d, false, n) == FinishBusy(dec, path, todo, d, n)
  {
    hide Finish, FinishBusy, AddChildren;
    SettleOpens(u, todo);
    DropDoneFinish(dec, path, todo, d, n);
    u', path' := u, path;
    var parentExpr := 0;
    ghost var k := 0;
    ghost var total := |todo| - |DropDone(todo)| + if DropDone(todo) == [] then 0 else 1;
    while u' != [] && parentExpr == 0
      invariant forall i | 0 <= i < |u'| :: u'[i].left > 0
      invariant AreNodes(path') && k <= total < |path| && |path'| == |path| - k
      invariant UpTimes(path, total) == UpTimes(path', total - k)
      invariant parentExpr == 0 ==> SettleLevels(u') == SettleLevels(u) && |u'| == |u| - k
      invariant parentExpr != 0 ==> u' == SettleLevels(u) && |u'| == |u| - k + 1
      decreases parentExpr == 0, |u'|
    {
      parentExpr := Last(u').left - 1;
      u' := Init(u');
      path' := Up(path');
      k := k + 1;
      if parentExpr != 0 {
        u' := u' + [Level(parentExpr, false)];
      }
    }
  }

  // ---------------------------------------------------------------- skipping one subterm

  /** One token less of the term to skip. */
  lemma FirstCodeStep(expr: seq<Token>, k: nat, need: nat)
    requires k <= |expr| && need > 0 && FirstCode(expr[k..], need).Some?
    ensures k < |expr| && need - 1 + expr[k].arity >= 0
    ensures var r := FirstCode(expr[k + 1..], need - 1 + expr[k].arity);
            r.Some? && FirstCode(expr[k..], need).value == r.value + 1
    ensures need - 1 + expr[k].arity == 0 ==> FirstCode(expr[k + 1..], 0).value == 0
  {
    assert expr[k..] != [] && expr[k..][0] == expr[k];
    assert expr[k..][1..] == expr[k + 1..];
  }

  lemma CountsPushed(u: seq<nat>, ary: nat)
    ensures CodesLeft(u + [ary]) == if u == [] then ary else CodesLeft(u) - 1 + ary
  {
    assert Init(u + [ary]) == u && Last(u + [ary]) == ary;
  }

  /** The position behind the term that begins at startExpr. */
  method CompleteExpression(expr: seq<Token>, startExpr: nat) returns (currTok: nat)
    requires startExpr <= |expr| && FirstCode(expr[startExpr..], 1).Some?
    ensures currTok == startExpr + FirstCode(expr[startExpr..], 1).value
  {
    hide FirstCode, CodesLeft;
    var unexplored: seq<nat> := [];
    currTok := startExpr;
    var going := true;
    ghost var need := 1;
    while going
      invariant startExpr <= currTok <= |expr|
      invariant forall i | 0 <= i < |unexplored| :: unexplored[i] > 0
      invariant need >= 0 && FirstCode(expr[currTok..], need).Some?
      invariant startExpr + FirstCode(expr[startExpr..], 1).value == currTok + FirstCode(expr[currTok..], need).value
      invariant going ==>
                  need > 0 && (unexplored != [] ==> need == CodesLeft(unexplored)) && (unexplored == [] ==> need == 1)
      invariant !going ==> need == 0
      decreases going, |expr| - currTok
    {
      FirstCodeStep(expr, currTok, need);
      var ary: nat := expr[currTok].arity;
      need := need - 1 + ary;
      if ary != 0 {
        CountsPushed(unexplored, ary);
        unexplored := unexplored + [ary];
      } else {
        if unexplored != [] {
          SettleCounts(unexplored);
        }
        unexplored := CountDown(unexplored);
      }
      CodesLeftPositive(unexplored);
      currTok := currTok + 1;
      going := unexplored != [];
    }
  }

  datatype CutoffHeuristic = ABSOLUTE | RELATIVE

  class SchemaEngine {
    const decoder: Decoder
    const cutoffHeuristic: CutoffHeuristic

    constructor (decoder: Decoder, cutoffHeuristic: CutoffHeuristic)
      ensures this.decoder == decoder && this.cutoffHeuristic == cutoffHeuristic
    {
      this.decoder, this.cutoffHeuristic := decoder, cutoffHeuristic;
    }

    /** Skips the given number of subterms. */
    method SkipExpressions(expr: seq<Token>, start: nat, n: nat, ghost ts: seq<Term>, ghost rest: seq<Token>)
        returns (currToken: nat)
      requires start <= |expr| && |ts| == n && (forall i | 0 <= i < n :: Ranked(ts[i]))
      requires expr[start..] == PreorderAll(ts) + rest
      ensures start + |PreorderAll(ts)| == currToken <= |expr| && expr[currToken..] == rest
    {
      currToken := start;
      var i := 0;
      assert ts[0..] == ts;
      while i < n
        invariant 0 <= i <= n && currToken <= |expr|
        invariant expr[currToken..] == PreorderAll(ts[i..]) + rest
        invariant currToken + |PreorderAll(ts[i..])| == start + |PreorderAll(ts)|
      {
        SkipOne(ts[i..], rest);
        ghost var before := currToken;
        currToken := CompleteExpression(expr, currToken);
        assert ts[i..][1..] == ts[i + 1..];
        assert expr[currToken..] == expr[before..][currToken - before..];
        i := i + 1;
      }
      assert ts[n..] == [];
    }

    /** Keeps the tokens above the cut-off. */
    method ReduceFormula(expr: seq<Token>, maxDepth: nat, ghost t: Term) returns (reducedExpr: seq<Token>)
      requires expr != [] ==> Ranked(t) && expr == Preorder(t)
      ensures reducedExpr == if expr == [] || maxDepth == 0 then [] else Reduced(decoder, t, 1, maxDepth)
    {
      if expr == [] || maxDepth == 0 {
        return [];
      }
      var unexplored := [Level(expr[0].arity, IsApply(decoder, expr[0]))];
      reducedExpr := [expr[0]];
      var currToken := 1;
      ghost var todo := [t.args];
      RootOpen(decoder, t, maxDepth);
      while currToken < |expr|
        invariant 1 <= currToken <= |expr|
        invariant currToken < |expr| ==>
                    && Open(unexplored, todo) && AllRanked(todo) && expr[currToken..] == Codes(todo)
                    && reducedExpr + Out(decoder, todo, maxDepth, Last(unexplored).first)
                        == Reduced(decoder, t, 1, maxDepth)
        invariant currToken == |expr| ==> reducedExpr == Reduced(decoder, t, 1, maxDepth)
      {
        hide Codes, Out, Open, Ranked, Reduced, IsApply, AllRanked;
        reducedExpr, unexplored, currToken,
            todo := ReduceStep(expr, maxDepth, reducedExpr, unexplored, currToken, todo);
      }
    }

    /** One turn of the loop: skips the remaining children of the last node, or keeps a token. */
    method ReduceStep(expr: seq<Token>, maxDepth: nat, out: seq<Token>, u: seq<Level>, k: nat, ghost todo: Todo)
        returns (out': seq<Token>, u': seq<Level>, k': nat, ghost todo': Todo)
      requires k < |expr| && Open(u, todo) && AllRanked(todo) && expr[k..] == Codes(todo)
      ensures k < k' <= |expr|
      ensures k' == |expr| ==> out' == out + Out(decoder, todo, maxDepth, Last(u).first)
      ensures k' < |expr| ==>
                && Open(u', todo') && AllRanked(todo') && expr[k'..] == Codes(todo')
                && out' + Out(decoder, todo', maxDepth, Last(u').first)
                    == out + Out(decoder, todo, maxDepth, Last(u).first)
    {
      hide Codes, Out, Ranked, IsApply, PreorderAll, Enter, Pass;
      var isFirstChild := Last(u).first;
      if |u| >= maxDepth && !isFirstChild {
        ghost var rest := Codes(Init(todo));
        CodesOfLast(todo);
        k' := SkipExpressions(expr, k, Last(u).left, Last(todo), rest);
        SomethingSkipped(Last(todo));
        SkipRest(decoder, u, todo, maxDepth);
        out', u', todo' := out, Init(u), Init(todo);
      } else {
        OpenCodes(u, todo);
        assert expr[k] == expr[k..][0] && expr[k + 1..] == expr[k..][1..];
        out' := out + [expr[k]];
        var ary := expr[k].arity;
        k' := k + 1;
        if ary != 0 {
          KeepInner(decoder, u, todo, maxDepth);
          u' := u + [Level(ary, IsApply(decoder, expr[k]))];
          todo' := Enter(todo);
          assert out' + Out(decoder, todo', maxDepth, Last(u').first)
                 == out + Out(decoder, todo, maxDepth, Last(u).first);
          OpenNotDone(u', todo', expr, k');
          return;
        }
        KeepLeaf(decoder, u, todo, maxDepth);
        u', todo' := u, Pass(todo);
        assert out' + Out(decoder, todo', maxDepth, false) == out + Out(decoder, todo, maxDepth, Last(u).first);
      }
      SettleOpens(u', todo');
      u' := CountDownLevels(u');
      DropDoneSame(decoder, todo', maxDepth);
      todo' := DropDone(todo');
      if todo' == [] {
        NothingOut(decoder, maxDepth);
        assert out' + [] == out';
      } else {
        OpenNotDone(u', todo', expr, k');
      }
    }

    /** Rebuilds the query of a schema. The tokens come from ReduceFormula. */
    method DecodeFormula(expr: seq<Token>, maxDepth: nat, ghost t: Term) returns (currCmml: Cmml)
      requires expr != [] ==> Ranked(t) && maxDepth > 0 && expr == Reduced(decoder, t, 1, maxDepth)
      ensures currCmml == if expr == [] then Qvar(0) else Schema(decoder, t, 1, maxDepth, 1)
    {
      if expr == [] {
        return Qvar(0);
      }
      var path := [NodeOf(decoder, expr[0], [])];
      var u := [Level(expr[0].arity, IsApply(decoder, expr[0]))];
      RootDecoding(decoder, t, maxDepth);
      if u[0].left == 0 {
        return path[0];
      }
      hide Decoding, Schema, Reduced, Ranked, IsApply;
      var currTok, qvarCount := 1, 1;
      ghost var todo := [t.args];
      ghost var whole := Schema(decoder, t, 1, maxDepth, 1);
      var going := true;
      while going
        invariant 1 <= currTok <= |expr|
        invariant Decoding(decoder, u, path, todo, maxDepth, qvarCount, expr[currTok..], whole)
        invariant going ==> u != []
        invariant !going ==> currTok == |expr|
        decreases going, |expr| - currTok, |u|
      {
        u, path, currTok, qvarCount, todo := DecodeStep(expr, maxDepth, u, path, currTok, qvarCount, todo, whole);
        going := currTok < |expr|;
        NothingOpen(decoder, u, path, todo, maxDepth, qvarCount, expr[currTok..], whole);
      }
      while u != []
        invariant Decoding(decoder, u, path, todo, maxDepth, qvarCount, [], whole)
        decreases |u|
      {
        NothingToCome(decoder, u, path, todo, maxDepth, qvarCount, whole);
        assert !Last(u).first;
        u, path, qvarCount, todo := FinishWithQvars(maxDepth, u, path, qvarCount, todo, [], whole);
      }
      NothingOpen(decoder, u, path, todo, maxDepth, qvarCount, [], whole);
      assert |path| == 1;
      currCmml := path[0];
    }

    /** One turn of the loop: variables for the remaining children of the last node, or one more token. */
    method DecodeStep(expr: seq<Token>, maxDepth: nat, u: seq<Level>, path: seq<Cmml>, k: nat, n: nat, ghost todo: Todo,
                      ghost whole: Cmml)
        returns (u': seq<Level>, path': seq<Cmml>, k': nat, n': nat, ghost todo': Todo)
      requires u != [] && k <= |expr| && Decoding(decoder, u, path, todo, maxDepth, n, expr[k..], whole)
      ensures k <= k' <= |expr| && (k' == k ==> |u'| < |u|)
      ensures Decoding(decoder, u', path', todo', maxDepth, n', expr[k'..], whole)
    {
      hide Decoding;
      k', n' := k, n;
      if |u| >= maxDepth && !Last(u).first {
        u', path', n', todo' := FinishWithQvars(maxDepth, u, path, n, todo, expr[k..], whole);
      } else {
        TokenToCome(decoder, u, path, todo, maxDepth, n, expr[k..], whole);
        assert expr[k] == expr[k..][0] && expr[k + 1..] == expr[k..][1..];
        path' := path + [NodeOf(decoder, expr[k], [])];
        var ary := expr[k].arity;
        if ary != 0 {
          DecodingEnter(decoder, u, path, todo, maxDepth, n, expr[k..], whole);
          u' := u + [Level(ary, IsApply(decoder, expr[k]))];
          todo' := Enter(todo);
        } else {
          DecodingLeaf(decoder, u, path, todo, maxDepth, n, expr[k..], whole);
          u', path' := CountDownTree(u, path', decoder, Pass(todo), maxDepth, n);
          todo' := DropDone(Pass(todo));
          DecodingSettled(decoder, u', path', Pass(todo), maxDepth, n, expr[k + 1..], whole);
        }
        k' := k + 1;
      }
    }

    /** Variables for the remaining children of the last node, which is then finished. */
    method FinishWithQvars(maxDepth: nat, u: seq<Level>, path: seq<Cmml>, n: nat, ghost todo: Todo,
                           ghost toCome: seq<Token>, ghost whole: Cmml)
        returns (u': seq<Level>, path': seq<Cmml>, n': nat, ghost todo': Todo)
      requires u != [] && Decoding(decoder, u, path, todo, maxDepth, n, toCome, whole)
      requires |u| >= maxDepth && !Last(u).first
      ensures |u'| < |u| && Decoding(decoder, u', path', todo', maxDepth, n', toCome, whole)
    {
      hide Decoding, AddChildren;
      DecodingSkip(decoder, u, path, todo, maxDepth, n, toCome, whole);
      var qvars;
      qvars, n' := NewQvars(Last(u).left, n);
      path' := Init(path) + [AddChildren(Last(path), qvars)];
      u', path' := CountDownTree(Init(u), path', decoder, Init(todo), maxDepth, n');
      todo' := DropDone(Init(todo));
      DecodingSettled(decoder, u', path', Init(todo), maxDepth, n', toCome, whole);
    }

    // -------------------------------------------------------------- classes of formulae

    /** The cut-off of each formula: the same for all, or its share of the formula's depth. */
    function Cutoffs(n: nat, depth: nat, shares: seq<nat>): (cuts: seq<nat>)
      requires |shares| == n
      ensures |cuts| == n
    {
      seq(n, i requires 0 <= i < n => if cutoffHeuristic.ABSOLUTE? then depth else shares[i])
    }

    /** The keys of all formulae. */
    ghost function Keys(formulae: seq<seq<Token>>, cuts: seq<nat>, ts: seq<Term>): (r: seq<seq<Token>>)
      requires |ts| == |cuts| == |formulae|
      ensures |r| == |formulae|
    {
      seq(|formulae|, i requires 0 <= i < |formulae| => Key(decoder, formulae[i], ts[i], cuts[i]))
    }

    /** One schema for the whole class of positions with the same key. It is the schema of the last
        one, and of every other one with the same cut-off. */
    ghost predicate IsSchema(s: ExprSchema, formulae: seq<seq<Token>>, cuts: seq<nat>, ts: seq<Term>)
      requires |ts| == |cuts| == |formulae|
    {
      var keys := Keys(formulae, cuts, ts);
      && s.formulae != [] && Last(s.formulae) < |keys|
      && s.formulae == Members(keys, keys[Last(s.formulae)])
      && s.coverage == |s.formulae|
      && forall i | i in s.formulae && cuts[i] == cuts[Last(s.formulae)] ::
           s.root == SchemaOf(decoder, formulae[i], ts[i], cuts[i])
    }

    /** Groups the formulae by what is kept of them and returns the schemata of the biggest groups. */
    method GetSchemata(formulae: seq<seq<Token>>, shares: seq<nat>, maxTotal: nat, depth: nat, ghost ts: seq<Term>)
        returns (total: nat, schemata: seq<ExprSchema>)
      requires |ts| == |shares| == |formulae| && AreCodes(formulae, ts)
      ensures total == |KeySet(Keys(formulae, Cutoffs(|formulae|, depth, shares), ts))|
      ensures |schemata| == if maxTotal != 0 && maxTotal < total then maxTotal else total
      ensures forall j | 0 <= j < |schemata| :: IsSchema(schemata[j], formulae, Cutoffs(|formulae|, depth, shares), ts)
      ensures forall i, j | 0 <= i < j < |schemata| :: schemata[i].formulae != schemata[j].formulae
      ensures forall i, j | 0 <= i < j < |schemata| :: schemata[i].coverage >= schemata[j].coverage
      ensures var keys := Keys(formulae, Cutoffs(|formulae|, depth, shares), ts);
              forall i | 0 <= i < |keys| ::
                || (exists j | 0 <= j < |schemata| :: schemata[j].formulae == Members(keys, keys[i]))
                || (|schemata| < total && forall j | 0 <= j < |schemata| ::
                    schemata[j].coverage >= |Members(keys, keys[i])|)
    {
      hide *;
      var cuts := Cutoffs(|formulae|, depth, shares);
      ghost var keys := Keys(formulae, cuts, ts);
      var schemaGroup, cutoffs;
      schemaGroup, cutoffs, total := GroupByHash(formulae, cuts, ts);
      var topExpr := Entries(schemaGroup, keys);
      topExpr := PickTop(topExpr, maxTotal, keys);
      SchemataAnswer(topExpr, keys, maxTotal);
      schemata := DecodeGroups(topExpr, cutoffs, formulae, cuts, ts);
      Coverages(schemata, topExpr, formulae, cuts, ts);
    }

    lemma Coverages(schemata: seq<ExprSchema>, groups: seq<Group>, formulae: seq<seq<Token>>, cuts: seq<nat>,
                    ts: seq<Term>)
      requires |ts| == |cuts| == |formulae| && |schemata| == |groups|
      requires forall j | 0 <= j < |schemata| ::
                 IsSchema(schemata[j], formulae, cuts, ts) && schemata[j].formulae == groups[j].1
      ensures forall j | 0 <= j < |schemata| :: schemata[j].coverage == |groups[j].1|
    {
    }

    /** For each key, the cut-off of the last formula with it. */
    ghost predicate LastCutoffs(cutoffs: map<string, nat>, keys: seq<seq<Token>>, cuts: seq<nat>)
      requires |keys| <= |cuts|
    {
      forall k | k in keys :: Members(keys, k) != [] && Hash(k) in cutoffs
          && cutoffs[Hash(k)] == cuts[Last(Members(keys, k))]
    }

    lemma NoCutoffs(cuts: seq<nat>)
      ensures LastCutoffs(map[], [], cuts)
    {
    }

    lemma LastCutoffsSnoc(cutoffs: map<string, nat>, keys: seq<seq<Token>>, cuts: seq<nat>, x: seq<Token>)
      requires |keys| < |cuts| && LastCutoffs(cutoffs, keys, cuts)
      ensures LastCutoffs(cutoffs[Hash(x) := cuts[|keys|]], keys + [x], cuts)
    {
      hide Hash, Members;
      forall k | k in keys + [x]
        ensures Members(keys + [x], k) != []
        ensures Hash(k) in cutoffs[Hash(x) := cuts[|keys|]]
        ensures cutoffs[Hash(x) := cuts[|keys|]][Hash(k)] == cuts[Last(Members(keys + [x], k))]
      {
        MembersSnoc(keys, x, k);
        HashInjective(x, k);
      }
    }

    method DecodeGroups(groups: seq<Group>, cutoffs: map<string, nat>, formulae: seq<seq<Token>>, ghost cuts: seq<nat>,
                        ghost ts: seq<Term>)
        returns (schemata: seq<ExprSchema>)
      requires |ts| == |cuts| == |formulae| && AreCodes(formulae, ts)
               && LastCutoffs(cutoffs, Keys(formulae, cuts, ts), cuts)
      requires forall j | 0 <= j < |groups| :: IsGroup(groups[j], Keys(formulae, cuts, ts))
      ensures |schemata| == |groups|
      ensures forall j | 0 <= j < |groups| ::
                IsSchema(schemata[j], formulae, cuts, ts) && schemata[j].formulae == groups[j].1
    {
      hide *;
      schemata := [];
      while |schemata| < |groups|
        invariant |schemata| <= |groups|
        invariant forall j | 0 <= j < |schemata| ::
                    IsSchema(schemata[j], formulae, cuts, ts) && schemata[j].formulae == groups[j].1
      {
        var schema := DecodeGroup(groups[|schemata|], cutoffs, formulae, cuts, ts);
        schemata := schemata + [schema];
      }
    }

    method GroupByHash(formulae: seq<seq<Token>>, cuts: seq<nat>, ghost ts: seq<Term>)
        returns (schemaGroup: map<string, seq<nat>>, cutoffs: map<string, nat>, total: nat)
      requires |ts| == |cuts| == |formulae| && AreCodes(formulae, ts)
      ensures Grouped(schemaGroup, Keys(formulae, cuts, ts)) && LastCutoffs(cutoffs, Keys(formulae, cuts, ts), cuts)
      ensures total == |KeySet(Keys(formulae, cuts, ts))|
    {
      hide Grouped, LastCutoffs, Hash, Members, Reduced, Ranked, Preorder, Filed, KeySet;
      NothingGrouped();
      NoCutoffs(cuts);
      schemaGroup, cutoffs := map[], map[];
      ghost var keys := Keys(formulae, cuts, ts);
      var i := 0;
      while i < |formulae|
        invariant 0 <= i <= |formulae|
        invariant Grouped(schemaGroup, keys[..i]) && LastCutoffs(cutoffs, keys[..i], cuts)
      {
        var reduced := ReduceFormula(formulae[i], cuts[i], ts[i]);
        var hash := HashExpr(reduced);
        GroupedSnoc(schemaGroup, keys[..i], reduced);
        LastCutoffsSnoc(cutoffs, keys[..i], cuts, reduced);
        assert keys[..i] + [reduced] == keys[..i + 1];
        schemaGroup := FileUnder(schemaGroup, hash, i);
        cutoffs := cutoffs[hash := cuts[i]];
        i := i + 1;
      }
      assert keys[..i] == keys;
      GroupedSize(schemaGroup, keys);
      total := |schemaGroup|;
    }

    method FileUnder(schemaGroup: map<string, seq<nat>>, hash: string, i: nat)
        returns (schemaGroup': map<string, seq<nat>>)
      ensures schemaGroup' == Filed(schemaGroup, hash, i)
    {
      if hash in schemaGroup {
        schemaGroup' := schemaGroup[hash := schemaGroup[hash] + [i]];
      } else {
        assert [] + [i] == [i];
        schemaGroup' := schemaGroup[hash := [i]];
      }
    }

    method DecodeGroup(group: Group, cutoffs: map<string, nat>, formulae: seq<seq<Token>>, ghost cuts: seq<nat>,
                       ghost ts: seq<Term>)
        returns (schema: ExprSchema)
      requires |ts| == |cuts| == |formulae| && AreCodes(formulae, ts)
               && LastCutoffs(cutoffs, Keys(formulae, cuts, ts), cuts)
      requires IsGroup(group, Keys(formulae, cuts, ts))
      ensures IsSchema(schema, formulae, cuts, ts) && schema.formulae == group.1
    {
      hide Hash, Members, Reduced, Ranked, Preorder, Schema;
      ghost var keys := Keys(formulae, cuts, ts);
      ghost var k :| k in keys && group == GroupOf(keys, k);
      assert Hash(k) in cutoffs;
      ghost var i := Last(group.1);
      assert keys[i] == k;
      var expr := UnhashExpr(group.0, k);
      var cutoff := cutoffs[group.0];
      var root := DecodeFormula(expr, cutoff, ts[i]);
      KeyEmpty(decoder, formulae[i], ts[i], cuts[i]);
      assert root == SchemaOf(decoder, formulae[i], ts[i], cuts[i]);
      schema := ExprSchema(root, |group.1|, group.1);
      forall j | j in group.1 && cuts[j] == cuts[i]
        ensures root == SchemaOf(decoder, formulae[j], ts[j], cuts[j])
      {
        SameClassSameSchema(decoder, formulae[i], ts[i], formulae[j], ts[j], cuts[i]);
      }
    }
  }

  lemma KeyEmpty(dec: Decoder, expr: seq<Token>, t: Term, d: nat)
    ensures Key(dec, expr, t, d) == [] <==> expr == [] || d == 0
  {
  }

  lemma SameClassSameSchema(dec: Decoder, expr: seq<Token>, t: Term, expr': seq<Token>, t': Term, d: nat)
    requires expr != [] ==> Ranked(t) && expr == Preorder(t)
    requires expr' != [] ==> Ranked(t') && expr' == Preorder(t')
    requires Key(dec, expr, t, d) == Key(dec, expr', t', d)
    ensures SchemaOf(dec, expr, t, d) == SchemaOf(dec, expr', t', d)
  {
    hide Ranked, Preorder, Schema;
    KeyEmpty(dec, expr, t, d);
    KeyEmpty(dec, expr', t', d);
    if expr != [] && expr' != [] {
      SchemaMatchesClass(dec, t, t', d);
    }
  }

  /** A schema, how many formulae it covers and their positions. */
  datatype ExprSchema = ExprSchema(root: Cmml, coverage: nat, formulae: seq<nat>)

  /** Every formula is empty or the code of its term. */
  ghost predicate AreCodes(formulae: seq<seq<Token>>, ts: seq<Term>)
  {
    |ts| == |formulae| && forall i | 0 <= i < |ts| :: formulae[i] != [] ==>
        Ranked(ts[i]) && formulae[i] == Preorder(ts[i])
  }
}
