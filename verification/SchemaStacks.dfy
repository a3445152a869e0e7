/** The explicit stacks of the schema engine: for each open node, how many children are not
    finished, and what those children are. */
module SchemaStacks {
  import opened Tokens
  import opened Terms
  import opened Schemas
  import opened Wrappers

  /** left children are not finished; first tells whether the next one is the first of an apply. */
  datatype Level = Level(left: nat, first: bool)

  // ---------------------------------------------------------------- plain counts

  /** A child of the last node is finished: finished nodes are popped, their parents count down. */
  function Settle(u: seq<nat>): seq<nat>
    requires forall i | 0 <= i < |u| :: u[i] > 0
    decreases |u|
  {
    if u == [] then []
    else if Last(u) == 1 then Settle(Init(u))
    else Init(u) + [Last(u) - 1]
  }

  /** How many codes complete all open nodes. */
  ghost function CodesLeft(u: seq<nat>): int
    decreases |u|
  {
    if u == [] then 0 else if |u| == 1 then u[0] else CodesLeft(Init(u)) - 1 + Last(u)
  }

  lemma {:induction false} CodesLeftPositive(u: seq<nat>)
    requires forall i | 0 <= i < |u| :: u[i] > 0
    ensures CodesLeft(u) >= 0 && (CodesLeft(u) == 0 <==> u == [])
    decreases |u|
  {
    if |u| > 1 {
      CodesLeftPositive(Init(u));
    }
  }

  lemma {:induction false} SettleCounts(u: seq<nat>)
    requires u != [] && forall i | 0 <= i < |u| :: u[i] > 0
    ensures CodesLeft(Settle(u)) == CodesLeft(u) - 1
    ensures forall i | 0 <= i < |Settle(u)| :: Settle(u)[i] > 0
    decreases |u|
  {
    if Last(u) == 1 {
      if |u| > 1 {
        SettleCounts(Init(u));
      }
    } else {
      var v := Init(u) + [Last(u) - 1];
      assert Init(v) == Init(u) && Last(v) == Last(u) - 1;
    }
  }

  // ---------------------------------------------------------------- levels with their children

  function SettleLevels(u: seq<Level>): (r: seq<Level>)
    requires forall i | 0 <= i < |u| :: u[i].left > 0
    ensures |r| <= |u|
    ensures r != [] ==> !Last(r).first
    decreases |u|
  {
    if u == [] then []
    else if Last(u).left == 1 then SettleLevels(Init(u))
    else
      var r := Init(u) + [Level(Last(u).left - 1, false)];
      assert Last(r) == Level(Last(u).left - 1, false);
      r
  }

  /** The children not yet begun, for each open node from the root on. */
  type Todo = seq<seq<Term>>

  ghost predicate AllRanked(todo: Todo)
  {
    forall i | 0 <= i < |todo| :: forall j | 0 <= j < |todo[i]| :: Ranked(todo[i][j])
  }

  /** The next token begins a child of the last node; earlier nodes have one child under way. */
  ghost predicate Open(u: seq<Level>, todo: Todo)
  {
    && |u| == |todo| && u != [] && Last(todo) != []
    && Last(u).left == |Last(todo)|
    && forall i | 0 <= i < |u| - 1 :: u[i].left == |todo[i]| + 1
  }

  /** A child of the last node has just been finished. */
  ghost predicate Busy(u: seq<Level>, todo: Todo)
  {
    |u| == |todo| && forall i | 0 <= i < |u| :: u[i].left == |todo[i]| + 1
  }

  function DropDone(todo: Todo): (r: Todo)
    ensures |r| <= |todo| && (r != [] ==> Last(r) != [])
    ensures forall i | 0 <= i < |r| :: r[i] == todo[i]
    decreases |todo|
  {
    if todo != [] && Last(todo) == [] then DropDone(Init(todo)) else todo
  }

  lemma {:induction false} SettleOpens(u: seq<Level>, todo: Todo)
    requires Busy(u, todo)
    ensures |SettleLevels(u)| == |DropDone(todo)|
    ensures DropDone(todo) != [] ==> Open(SettleLevels(u), DropDone(todo))
    decreases |u|
  {
    if u != [] && Last(todo) == [] {
      SettleOpens(Init(u), Init(todo));
    }
  }

  /** The tokens of all children not yet begun. */
  ghost function Codes(todo: Todo): seq<Token>
    decreases |todo|
  {
    if todo == [] then [] else PreorderAll(Last(todo)) + Codes(Init(todo))
  }

  /** What will be kept of them. */
  ghost function Out(dec: Decoder, todo: Todo, d: nat, first: bool): seq<Token>
    decreases |todo|
  {
    if todo == [] then []
    else ReducedKids(dec, Last(todo), |todo|, d, first) + Out(dec, Init(todo), d, false)
  }

  lemma {:induction false} DropDoneSame(dec: Decoder, todo: Todo, d: nat)
    ensures Codes(DropDone(todo)) == Codes(todo) && Out(dec, DropDone(todo), d, false) == Out(dec, todo, d, false)
    decreases |todo|
  {
    if todo != [] && Last(todo) == [] {
      DropDoneSame(dec, Init(todo), d);
    }
  }

  lemma OpenCodes(u: seq<Level>, todo: Todo)
    requires Open(u, todo)
    ensures var t, after := Last(todo)[0], PreorderAll(Last(todo)[1..]) + Codes(Init(todo));
            Codes(todo) == [t.tok] + (PreorderAll(t.args) + after)
  {
    var t := Last(todo)[0];
    var args, rest, below := PreorderAll(t.args), PreorderAll(Last(todo)[1..]), Codes(Init(todo));
    assert Codes(todo) == PreorderAll(Last(todo)) + below;
    assert PreorderAll(Last(todo)) == ([t.tok] + args) + rest;
    hide Codes, PreorderAll;
    assert (([t.tok] + args) + rest) + below == [t.tok] + (args + (rest + below));
  }

  /** Below the cut-off nothing is kept of the remaining children. */
  lemma {:induction false} NothingKept(dec: Decoder, ts: seq<Term>, h: nat, d: nat)
    requires h >= d
    ensures ReducedKids(dec, ts, h, d, false) == [] && SkippedKids(dec, ts, h, d, false) == ts
    decreases ts
  {
    if ts != [] {
      NothingKept(dec, ts[1..], h, d);
    }
  }

  /** Skipping the remaining children of the last node finishes it. */
  lemma SkipRest(dec: Decoder, u: seq<Level>, todo: Todo, d: nat)
    requires Open(u, todo) && |u| >= d && !Last(u).first
    ensures Busy(Init(u), Init(todo))
    ensures Out(dec, todo, d, false) == Out(dec, Init(todo), d, false)
  {
    NothingKept(dec, Last(todo), |todo|, d);
  }

  /** Going into the next child. */
  ghost function Enter(todo: Todo): Todo
    requires todo != [] && Last(todo) != []
  {
    Init(todo) + [Last(todo)[1..]] + [Last(todo)[0].args]
  }

  ghost function Pass(todo: Todo): Todo
    requires todo != [] && Last(todo) != []
  {
    Init(todo) + [Last(todo)[1..]]
  }

  lemma EnterShape(todo: Todo)
    requires todo != [] && Last(todo) != []
    ensures Init(Enter(todo)) == Pass(todo) && Last(Enter(todo)) == Last(todo)[0].args
    ensures Init(Pass(todo)) == Init(todo) && Last(Pass(todo)) == Last(todo)[1..]
    ensures |Enter(todo)| == |todo| + 1 && |Pass(todo)| == |todo|
  {
    assert Init(Enter(todo)) == Pass(todo);
    assert Init(Pass(todo)) == Init(todo);
  }

  lemma KeepInner(dec: Decoder, u: seq<Level>, todo: Todo, d: nat)
    requires Open(u, todo) && AllRanked(todo) && (|u| < d || Last(u).first) && Last(todo)[0].tok.arity != 0
    ensures var tok := Last(todo)[0].tok;
            var u' := u + [Level(tok.arity, IsApply(dec, tok))];
            && Open(u', Enter(todo)) && AllRanked(Enter(todo))
            && Codes(todo) == [tok] + Codes(Enter(todo))
            && Out(dec, todo, d, Last(u).first) == [tok] + Out(dec, Enter(todo), d, IsApply(dec, tok))
  {
    EnterOpens(u, todo, IsApply(dec, Last(todo)[0].tok));
    hide Ranked, Enter, Pass, IsApply, PreorderAll, ReducedKids, AllRanked, Open, DropDone;
    EnterShape(todo);
    OpenCodes(u, todo);
    assert Codes(Enter(todo)) == PreorderAll(Last(todo)[0].args) + (PreorderAll(Last(todo)[1..]) + Codes(Init(todo)));
    EnterOut(dec, todo, d, Last(u).first);
  }

  lemma EnterOpens(u: seq<Level>, todo: Todo, first: bool)
    requires Open(u, todo) && AllRanked(todo) && Last(todo)[0].tok.arity != 0
    ensures Open(u + [Level(Last(todo)[0].tok.arity, first)], Enter(todo)) && AllRanked(Enter(todo))
  {
    EnterShape(todo);
    assert Ranked(Last(todo)[0]);
  }

  lemma EnterOut(dec: Decoder, todo: Todo, d: nat, first: bool)
    requires todo != [] && Last(todo) != [] && (|todo| < d || first)
    ensures var tok := Last(todo)[0].tok;
            Out(dec, todo, d, first) == [tok] + Out(dec, Enter(todo), d, IsApply(dec, tok))
  {
    hide *;
    var t, below := Last(todo)[0], Out(dec, Init(todo), d, false);
    var kids, rest := ReducedKids(dec, t.args, |todo| + 1, d, IsApply(dec, t.tok)),
        ReducedKids(dec, Last(todo)[1..], |todo|, d, false);
    OutOfFirst(dec, todo, d, first);
    OutOfEntered(dec, todo, d, IsApply(dec, t.tok));
    assert (([t.tok] + kids) + rest) + below == [t.tok] + (kids + (rest + below));
  }

  lemma OutOfFirst(dec: Decoder, todo: Todo, d: nat, first: bool)
    requires todo != [] && Last(todo) != [] && (|todo| < d || first)
    ensures var t := Last(todo)[0];
            var kids := ReducedKids(dec, t.args, |todo| + 1, d, IsApply(dec, t.tok));
            Out(dec, todo, d, first)
            == (([t.tok] + kids) + ReducedKids(dec, Last(todo)[1..], |todo|, d, false)) + Out(dec, Init(todo), d, false)
  {
    hide IsApply;
    var t := Last(todo)[0];
    assert Reduced(dec, t, |todo| + 1, d) == [t.tok] + ReducedKids(dec, t.args, |todo| + 1, d, IsApply(dec, t.tok));
    assert ReducedKids(dec, Last(todo), |todo|, d, first)
        == Reduced(dec, t, |todo| + 1, d) + ReducedKids(dec, Last(todo)[1..], |todo|, d, false);
  }

  lemma OutOfEntered(dec: Decoder, todo: Todo, d: nat, first: bool)
    requires todo != [] && Last(todo) != []
    ensures Out(dec, Enter(todo), d, first)
         == ReducedKids(dec, Last(todo)[0].args, |todo| + 1, d, first)
            + (ReducedKids(dec, Last(todo)[1..], |todo|, d, false) + Out(dec, Init(todo), d, false))
  {
    EnterShape(todo);
    hide Enter, Pass, ReducedKids;
    assert Out(dec, Enter(todo), d, first)
           == ReducedKids(dec, Last(Enter(todo)), |Enter(todo)|, d, first) + Out(dec, Pass(todo), d, false);
  }

  lemma KeepLeaf(dec: Decoder, u: seq<Level>, todo: Todo, d: nat)
    requires Open(u, todo) && AllRanked(todo) && (|u| < d || Last(u).first) && Last(todo)[0].tok.arity == 0
    ensures var tok := Last(todo)[0].tok;
            && Busy(u, Pass(todo)) && AllRanked(Pass(todo))
            && Codes(todo) == [tok] + Codes(Pass(todo))
            && Out(dec, todo, d, Last(u).first) == [tok] + Out(dec, Pass(todo), d, false)
  {
    PassBusy(u, todo);
    hide Ranked, Enter, Pass, IsApply, ReducedKids, AllRanked, Open, Busy;
    EnterShape(todo);
    OpenCodes(u, todo);
    assert PreorderAll([]) + (PreorderAll(Last(todo)[1..]) + Codes(Init(todo))) == Codes(Pass(todo));
    PassOut(dec, todo, d, Last(u).first);
  }

  lemma PassBusy(u: seq<Level>, todo: Todo)
    requires Open(u, todo) && AllRanked(todo) && Last(todo)[0].tok.arity == 0
    ensures Busy(u, Pass(todo)) && AllRanked(Pass(todo)) && Last(todo)[0].args == []
  {
    EnterShape(todo);
    assert Ranked(Last(todo)[0]);
  }

  lemma PassOut(dec: Decoder, todo: Todo, d: nat, first: bool)
    requires todo != [] && Last(todo) != [] && Last(todo)[0].args == [] && (|todo| < d || first)
    ensures Out(dec, todo, d, first) == [Last(todo)[0].tok] + Out(dec, Pass(todo), d, false)
  {
    hide Enter, Pass, IsApply;
    EnterShape(todo);
    var t, below := Last(todo)[0], Out(dec, Init(todo), d, false);
    var rest := ReducedKids(dec, Last(todo)[1..], |todo|, d, false);
    assert Reduced(dec, t, |todo| + 1, d) == [t.tok];
    assert ReducedKids(dec, Last(todo), |todo|, d, first) == Reduced(dec, t, |todo| + 1, d) + rest;
    assert Out(dec, todo, d, first) == ReducedKids(dec, Last(todo), |todo|, d, first) + below;
    assert Out(dec, Pass(todo), d, false) == rest + below;
    hide ReducedKids, Out, Reduced;
    assert ([t.tok] + rest) + below == [t.tok] + (rest + below);
  }

  // ---------------------------------------------------------------- facts for the loops

  lemma CodesOfLast(todo: Todo)
    requires todo != []
    ensures Codes(todo) == PreorderAll(Last(todo)) + Codes(Init(todo))
  {
  }

  lemma SomethingSkipped(ts: seq<Term>)
    requires ts != []
    ensures PreorderAll(ts) != []
  {
  }

  lemma OpenNotDone(u: seq<Level>, todo: Todo, expr: seq<Token>, k: nat)
    requires Open(u, todo) && k <= |expr| && expr[k..] == Codes(todo)
    ensures k < |expr|
  {
    OpenCodes(u, todo);
  }

  lemma NothingOut(dec: Decoder, d: nat)
    ensures Codes([]) == [] && Out(dec, [], d, false) == []
  {
  }

  lemma SkipOne(ts: seq<Term>, rest: seq<Token>)
    requires ts != [] && Ranked(ts[0])
    ensures FirstCode(PreorderAll(ts) + rest, 1) == Some(|Preorder(ts[0])|)
    ensures (PreorderAll(ts) + rest)[|Preorder(ts[0])|..] == PreorderAll(ts[1..]) + rest
  {
    var w := Preorder(ts[0]);
    PreorderAllIsCode([ts[0]]);
    assert PreorderAll([ts[0]]) == w + PreorderAll([ts[0]][1..]) == w;
    assert (PreorderAll(ts) + rest)[..|w|] == w;
    CodePrefixUnique(PreorderAll(ts) + rest, |w|, 1);
  }

  lemma RootOpen(dec: Decoder, t: Term, d: nat)
    requires Ranked(t)
    ensures AllRanked([t.args]) && Preorder(t)[1..] == Codes([t.args])
    ensures t.args != [] ==> Open([Level(t.tok.arity, IsApply(dec, t.tok))], [t.args])
    ensures t.args == [] ==> Codes([t.args]) == []
    ensures [t.tok] + Out(dec, [t.args], d, IsApply(dec, t.tok)) == Reduced(dec, t, 1, d)
    ensures t.args != [] ==> Codes([t.args]) != []
  {
    assert Init([t.args]) == [];
    assert Codes([t.args]) == PreorderAll(t.args) + [];
    assert Out(dec, [t.args], d, IsApply(dec, t.tok)) == ReducedKids(dec, t.args, 1, d, IsApply(dec, t.tok)) + [];
  }
}
