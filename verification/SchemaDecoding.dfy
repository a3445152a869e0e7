/** Rebuilding the query tree of a schema from its kept tokens. The node under construction and
    its ancestors form a stack; a finished node becomes the last child of its parent. */
module SchemaDecoding {
  import opened Tokens
  import opened Terms
  import opened Schemas
  import opened SchemaStacks
  import opened Wrappers

  ghost predicate AreNodes(path: seq<Cmml>)
  {
    forall i | 0 <= i < |path| :: path[i].Node?
  }

  function AddChildren(c: Cmml, kids: seq<Cmml>): (r: Cmml)
    requires c.Node?
    ensures r.Node?
  {
    Node(c.tag, c.text, c.children + kids)
  }

  /** The last node is finished and becomes a child of its parent. */
  function Up(path: seq<Cmml>): (r: seq<Cmml>)
    requires |path| >= 2 && path[|path| - 2].Node?
    ensures |r| == |path| - 1
  {
    path[..|path| - 2] + [AddChildren(path[|path| - 2], [Last(path)])]
  }

  /** The tree that arises when all open nodes get their remaining children. */
  ghost function Finish(dec: Decoder, path: seq<Cmml>, todo: Todo, d: nat, first: bool, n: nat): Cmml
    requires |path| == |todo| > 0 && AreNodes(path)
    decreases |todo|, 0
  {
    var kids := SchemaKids(dec, Last(todo), |todo|, d, first, n);
    var path' := Init(path) + [AddChildren(Last(path), kids)];
    FinishBusy(dec, path', Init(todo), d, n + |SkippedKids(dec, Last(todo), |todo|, d, first)|)
  }

  /** The same when the last node is finished. */
  ghost function FinishBusy(dec: Decoder, path: seq<Cmml>, todo: Todo, d: nat, n: nat): Cmml
    requires |path| == |todo| + 1 && AreNodes(path)
    decreases |todo|, 1
  {
    if todo == [] then path[0] else Finish(dec, Up(path), todo, d, false, n)
  }

  // ---------------------------------------------------------------- moves

  ghost function UpTimes(path: seq<Cmml>, k: nat): (r: seq<Cmml>)
    requires k < |path| && AreNodes(path)
    ensures |r| == |path| - k && AreNodes(r)
    decreases k
  {
    if k == 0 then path else UpTimes(Up(path), k - 1)
  }

  /** Nodes without remaining children are finished in turn. */
  lemma {:induction false} DropDoneFinish(dec: Decoder, path: seq<Cmml>, todo: Todo, d: nat, n: nat)
    requires |path| == |todo| + 1 && AreNodes(path)
    ensures var k := |todo| - |DropDone(todo)|;
            FinishBusy(dec, path, todo, d, n) ==
            if DropDone(todo) == [] then UpTimes(path, k)[0]
            else Finish(dec, UpTimes(path, k + 1), DropDone(todo), d, false, n)
    decreases |todo|
  {
    if todo != [] && Last(todo) == [] {
      var up := Up(path);
      assert AddChildren(Last(up), []) == Last(up) && Init(up) + [Last(up)] == up;
      DropDoneFinish(dec, up, Init(todo), d, n);
    } else if todo != [] {
      assert UpTimes(path, 1) == Up(path);
    }
  }

  /** Variables for all remaining children finish the last node. */
  lemma SkipFinish(dec: Decoder, path: seq<Cmml>, u: seq<Level>, todo: Todo, d: nat, n: nat)
    requires Open(u, todo) && |u| >= d && !Last(u).first && |path| == |todo| && AreNodes(path)
    ensures var k := |Last(todo)|;
            var qvars := seq(k, i requires 0 <= i < k => Qvar(n + i));
            Finish(dec, path, todo, d, false, n)
            == FinishBusy(dec, Init(path) + [AddChildren(Last(path), qvars)], Init(todo), d, n + k)
  {
    NothingKept(dec, Last(todo), |todo|, d);
    AllQvars(dec, Last(todo), |todo|, d, n);
  }

  lemma {:induction false} AllQvars(dec: Decoder, ts: seq<Term>, h: nat, d: nat, n: nat)
    requires h >= d
    ensures SchemaKids(dec, ts, h, d, false, n) == seq(|ts|, i requires 0 <= i < |ts| => Qvar(n + i))
    decreases ts
  {
    if ts != [] {
      AllQvars(dec, ts[1..], h, d, n + 1);
      var rest := seq(|ts| - 1, i requires 0 <= i < |ts| - 1 => Qvar(n + 1 + i));
      assert [Qvar(n)] + rest == seq(|ts|, i requires 0 <= i < |ts| => Qvar(n + i));
    }
  }

  /** A kept child becomes the node under construction. */
  lemma EnterFinish(dec: Decoder, path: seq<Cmml>, todo: Todo, d: nat, first: bool, n: nat)
    requires todo != [] && Last(todo) != [] && (|todo| < d || first) && |path| == |todo| && AreNodes(path)
    ensures var tok := Last(todo)[0].tok;
            Finish(dec, path, todo, d, first, n)
            == Finish(dec, path + [NodeOf(dec, tok, [])], Enter(todo), d, IsApply(dec, tok), n)
  {
    hide Enter, Pass, IsApply, NodeOf, Skipped, Schema;
    EnterShape(todo);
    var t := Last(todo)[0];
    var path1 := path + [NodeOf(dec, t.tok, [])];
    assert Init(path1) == path && Last(path1) == NodeOf(dec, t.tok, []);
    EnterSchema(dec, t, |todo|, d, n);
    var below := |Skipped(dec, t, |todo| + 1, d)|;
    var c := Schema(dec, t, |todo| + 1, d, n);
    assert Finish(dec, path1, Enter(todo), d, IsApply(dec, t.tok), n)
           == FinishBusy(dec, path + [c], Pass(todo), d, n + below);
    AddFirst(dec, path, todo, d, first, n);
  }

  lemma EnterSchema(dec: Decoder, t: Term, h: nat, d: nat, n: nat)
    ensures Schema(dec, t, h + 1, d, n)
         == AddChildren(NodeOf(dec, t.tok, []), SchemaKids(dec, t.args, h + 1, d, IsApply(dec, t.tok), n))
    ensures Skipped(dec, t, h + 1, d) == SkippedKids(dec, t.args, h + 1, d, IsApply(dec, t.tok))
  {
    var kids := SchemaKids(dec, t.args, h + 1, d, IsApply(dec, t.tok), n);
    assert [] + kids == kids;
  }

  /** The first child may be added before the others. */
  lemma AddFirst(dec: Decoder, path: seq<Cmml>, todo: Todo, d: nat, first: bool, n: nat)
    requires todo != [] && Last(todo) != [] && (|todo| < d || first) && |path| == |todo| && AreNodes(path)
    ensures var t := Last(todo)[0];
            Finish(dec, path, todo, d, first, n)
            == FinishBusy(dec, path + [Schema(dec, t, |todo| + 1, d, n)], Pass(todo), d,
                          n + |Skipped(dec, t, |todo| + 1, d)|)
  {
    hide Enter, Pass, Skipped, Schema;
    EnterShape(todo);
    var t := Last(todo)[0];
    var c, below := Schema(dec, t, |todo| + 1, d, n), |Skipped(dec, t, |todo| + 1, d)|;
    SchemaIsNode(dec, t, |todo| + 1, d, n);
    var rest := SchemaKids(dec, Last(todo)[1..], |todo|, d, false, n + below);
    assert SchemaKids(dec, Last(todo), |todo|, d, first, n) == [c] + rest;
    var up := Up(path + [c]);
    assert up == Init(path) + [AddChildren(Last(path), [c])];
    assert Init(up) == Init(path) && Last(up) == AddChildren(Last(path), [c]);
    assert AddChildren(AddChildren(Last(path), [c]), rest) == AddChildren(Last(path), [c] + rest) by {
      assert (Last(path).children + [c]) + rest == Last(path).children + ([c] + rest);
    }
  }

  lemma SchemaIsNode(dec: Decoder, t: Term, h: nat, d: nat, n: nat)
    ensures Schema(dec, t, h, d, n).Node?
  {
  }

  /** A kept childless child is finished at once. */
  lemma LeafFinish(dec: Decoder, path: seq<Cmml>, todo: Todo, d: nat, first: bool, n: nat)
    requires todo != [] && Last(todo) != [] && (|todo| < d || first) && |path| == |todo| && AreNodes(path)
    requires Last(todo)[0].args == []
    ensures var tok := Last(todo)[0].tok;
            Finish(dec, path, todo, d, first, n) == FinishBusy(dec, path + [NodeOf(dec, tok, [])], Pass(todo), d, n)
  {
    AddFirst(dec, path, todo, d, first, n);
  }

  // ---------------------------------------------------------------- the loop

  /** Finishing the open nodes gives the whole tree, from exactly the tokens to come. */
  ghost predicate Decoding(dec: Decoder, u: seq<Level>, path: seq<Cmml>, todo: Todo, d: nat, n: nat, toCome: seq<Token>,
                           whole: Cmml)
  {
    && AreNodes(path) && AllRanked(todo)
    && (u == [] ==> |path| == 1 && path[0] == whole && toCome == [])
    && (u != [] ==>
          && Open(u, todo) && |path| == |u|
          && toCome == Out(dec, todo, d, Last(u).first)
          && Finish(dec, path, todo, d, Last(u).first, n) == whole)
  }

  lemma RootDecoding(dec: Decoder, t: Term, d: nat)
    requires Ranked(t)
    ensures var expr := Reduced(dec, t, 1, d);
            && expr[0] == t.tok
            && (t.tok.arity == 0 ==> Schema(dec, t, 1, d, 1) == NodeOf(dec, expr[0], []))
            && (t.tok.arity != 0 ==>
                  Decoding(dec, [Level(t.tok.arity, IsApply(dec, t.tok))], [NodeOf(dec, t.tok, [])], [t.args], d, 1,
                           expr[1..], Schema(dec, t, 1, d, 1)))
  {
    hide NodeOf, IsApply;
    RootOpen(dec, t, d);
    EnterSchema(dec, t, 0, d, 1);
    var path := [NodeOf(dec, t.tok, [])];
    var kids := SchemaKids(dec, t.args, 1, d, IsApply(dec, t.tok), 1);
    assert Init(path) + [AddChildren(Last(path), kids)] == [AddChildren(path[0], kids)];
    assert Init([t.args]) == [];
    var out := Out(dec, [t.args], d, IsApply(dec, t.tok));
    assert ([t.tok] + out)[1..] == out;
    if t.tok.arity == 0 {
      assert AddChildren(path[0], []) == path[0];
    } else {
      assert AreNodes(path) && AllRanked([t.args]);
      assert Open([Level(t.tok.arity, IsApply(dec, t.tok))], [t.args]);
      assert Reduced(dec, t, 1, d)[1..] == out;
      assert Finish(dec, path, [t.args], d, IsApply(dec, t.tok), 1)
             == FinishBusy(dec, [AddChildren(path[0], kids)], [], d,
                           1 + |SkippedKids(dec, t.args, 1, d, IsApply(dec, t.tok))|);
    }
  }

  lemma NothingOpen(dec: Decoder, u: seq<Level>, path: seq<Cmml>, todo: Todo, d: nat, n: nat, toCome: seq<Token>,
                    whole: Cmml)
    requires Decoding(dec, u, path, todo, d, n, toCome, whole)
    ensures u == [] ==> toCome == [] && |path| == 1 && path[0] == whole
  {
  }

  /** As long as the last node is above the cut-off, there is a token for its next child. */
  lemma TokenToCome(dec: Decoder, u: seq<Level>, path: seq<Cmml>, todo: Todo, d: nat, n: nat, toCome: seq<Token>,
                    whole: Cmml)
    requires u != [] && Decoding(dec, u, path, todo, d, n, toCome, whole) && (|u| < d || Last(u).first)
    ensures toCome != [] && todo != [] && Last(todo) != [] && toCome[0] == Last(todo)[0].tok
  {
    var t := Last(todo)[0];
    assert Reduced(dec, t, |todo| + 1, d)[0] == t.tok;
  }

  lemma NothingToCome(dec: Decoder, u: seq<Level>, path: seq<Cmml>, todo: Todo, d: nat, n: nat, whole: Cmml)
    requires u != [] && Decoding(dec, u, path, todo, d, n, [], whole)
    ensures |u| >= d && !Last(u).first
  {
    if |u| < d || Last(u).first {
      TokenToCome(dec, u, path, todo, d, n, [], whole);
    }
  }

  lemma DecodingEnter(dec: Decoder, u: seq<Level>, path: seq<Cmml>, todo: Todo, d: nat, n: nat, toCome: seq<Token>,
                      whole: Cmml)
    requires u != [] && Decoding(dec, u, path, todo, d, n, toCome, whole) && (|u| < d || Last(u).first)
    requires toCome != [] && todo != [] && Last(todo) != [] && toCome[0] == Last(todo)[0].tok && toCome[0].arity != 0
    ensures Decoding(dec, u + [Level(toCome[0].arity, IsApply(dec, toCome[0]))], path + [NodeOf(dec, toCome[0], [])],
                     Enter(todo), d, n, toCome[1..], whole)
  {
    hide Out, Finish, NodeOf, IsApply, Open, AllRanked, Enter;
    OpenSizes(u, todo);
    KeepInner(dec, u, todo, d);
    EnterFinish(dec, path, todo, d, Last(u).first, n);
  }

  lemma OpenSizes(u: seq<Level>, todo: Todo)
    requires Open(u, todo)
    ensures |u| == |todo| && Last(todo) != [] && Last(u).left == |Last(todo)| && forall i | 0 <= i < |u| ::
              u[i].left > 0
  {
  }

  lemma DecodingLeaf(dec: Decoder, u: seq<Level>, path: seq<Cmml>, todo: Todo, d: nat, n: nat, toCome: seq<Token>,
                     whole: Cmml)
    requires u != [] && Decoding(dec, u, path, todo, d, n, toCome, whole) && (|u| < d || Last(u).first)
    requires toCome != [] && todo != [] && Last(todo) != [] && toCome[0] == Last(todo)[0].tok && toCome[0].arity == 0
    ensures var path' := path + [NodeOf(dec, toCome[0], [])];
            && Busy(u, Pass(todo)) && AllRanked(Pass(todo)) && |path'| == |u| + 1 && AreNodes(path')
            && toCome[1..] == Out(dec, Pass(todo), d, false)
            && FinishBusy(dec, path', Pass(todo), d, n) == whole
  {
    hide Out, Finish, FinishBusy, NodeOf, Pass;
    OpenSizes(u, todo);
    KeepLeaf(dec, u, todo, d);
    PassBusy(u, todo);
    LeafFinish(dec, path, todo, d, Last(u).first, n);
  }

  lemma DecodingSkip(dec: Decoder, u: seq<Level>, path: seq<Cmml>, todo: Todo, d: nat, n: nat, toCome: seq<Token>,
                     whole: Cmml)
    requires u != [] && Decoding(dec, u, path, todo, d, n, toCome, whole) && |u| >= d && !Last(u).first
    ensures var k := Last(u).left;
            var qvars := seq(k, i requires 0 <= i < k => Qvar(n + i));
            && |path| == |u| == |todo| && AreNodes(path)
            && Busy(Init(u), Init(todo)) && AllRanked(Init(todo))
            && toCome == Out(dec, Init(todo), d, false)
            && AreNodes(Init(path) + [AddChildren(Last(path), qvars)])
            && FinishBusy(dec, Init(path) + [AddChildren(Last(path), qvars)], Init(todo), d, n + k) == whole
  {
    hide Out, Finish, FinishBusy, AddChildren;
    SkipRest(dec, u, todo, d);
    SkipFinish(dec, path, u, todo, d, n);
  }

  /** After counting down, decoding goes on in the first node that has children left. */
  lemma DecodingSettled(dec: Decoder, u: seq<Level>, path: seq<Cmml>, todo: Todo, d: nat, n: nat, toCome: seq<Token>,
                        whole: Cmml)
    requires AreNodes(path) && AllRanked(todo) && toCome == Out(dec, todo, d, false)
    requires DropDone(todo) == [] ==> u == [] && |path| == 1 && path[0] == whole
    requires DropDone(todo) != [] ==>
               && Open(u, DropDone(todo)) && |path| == |u| && !Last(u).first
               && Finish(dec, path, DropDone(todo), d, false, n) == whole
    ensures Decoding(dec, u, path, DropDone(todo), d, n, toCome, whole)
  {
    hide Finish, Out, Open;
    DropDoneSame(dec, todo, d);
    NothingOut(dec, d);
    if DropDone(todo) != [] {
      OpenSizes(u, DropDone(todo));
    }
  }
}
