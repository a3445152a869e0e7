/** The search over harvested expressions: its answers are the entries of the subexpressions that
    are instances of the query expression, each harvested expression counting once for each. */
module ExpressionSearch {
  import opened Tokens
  import opened Terms
  import opened Tries
  import opened TmpIndexes
  import opened Expressions
  import opened CiRenaming
  import opened ExpressionEncoders
  import opened AlphaEncoding
  import opened IdDictionaries
  import opened Numberings
  import opened QueryIds
  import opened ExpressionInstances
  import opened Accessors
  import opened SearchSpec
  import opened SearchContexts
  import opened IndexBuilders
  import opened IndexedSearch
  import opened Libraries
  import opened Wrappers
  import Q = Queries
  import A = Answers
  import F = Formulae

  // ---------------------------------------------------------------- what should be found

  /** The entries of the subexpressions before n that are instances of e. */
  ghost function FromDoc(d: Doc, e: Expr, head: bool, rd: Reading, n: nat): seq<A.FormulaInfo>
    requires n <= |d.Items()|
  {
    if n == 0 then []
    else
      FromDoc(d, e, head, rd, n - 1)
      + if d.GetsEntry(n - 1) && IsInstance(e, head, d.ShapeAt(n - 1), rd) then [d.InfoAt(n - 1)] else []
  }

  /** The entries of all harvested subexpressions that are instances of e. */
  ghost function Expected(docs: seq<Doc>, e: Expr, head: bool, rd: Reading): seq<A.FormulaInfo>
    decreases |docs|
  {
    if docs == [] then []
    else Expected(Init(docs), e, head, rd) + FromDoc(Last(docs), e, head, rd, |Last(docs).Items()|)
  }

  // ---------------------------------------------------------------- the paths found

  ghost function Paths(q: Q.Query, ss: seq<Spot>): seq<seq<Token>> {
    if ss == [] then []
    else if Q.IsInstance(q, ss[0].path) then [ss[0].path] + Paths(q, ss[1..])
    else Paths(q, ss[1..])
  }

  ghost function EntriesAlong(tree: Trie, data: Data, ws: seq<seq<Token>>): seq<A.FormulaInfo> {
    if ws == [] then [] else EntriesAt(tree, data, ws[0]) + EntriesAlong(tree, data, ws[1..])
  }

  lemma {:induction false} EntriesOfMatches(q: Q.Query, tree: Trie, data: Data, ss: seq<Spot>)
    requires forall i | 0 <= i < |ss| :: IsLeafPath(tree, ss[i].path) && LeafAt(tree, ss[i].path) == ss[i].node
    ensures (forall t | t in Instances(q, ss) :: t.Leaf?)
         && A.AllEntries(data, Instances(q, ss)) == EntriesAlong(tree, data, Paths(q, ss))
    decreases |ss|
  {
    hide Q.IsInstance, IsLeafPath, LeafAt, A.Entries;
    if ss != [] {
      EntriesOfMatches(q, tree, data, ss[1..]);
      assert LeafAt(tree, ss[0].path).Leaf?;
      if Q.IsInstance(q, ss[0].path) {
        var rest := Instances(q, ss[1..]);
        assert ([ss[0].node] + rest)[1..] == rest;
        assert ([ss[0].path] + Paths(q, ss[1..]))[1..] == Paths(q, ss[1..]);
      }
    }
  }

  lemma {:induction false} PathsAre(q: Q.Query, ss: seq<Spot>, w: seq<Token>)
    ensures w in Paths(q, ss) <==> Q.IsInstance(q, w) && exists i :: 0 <= i < |ss| && ss[i].path == w
    decreases |ss|
  {
    hide Q.IsInstance;
    if ss != [] {
      PathsAre(q, ss[1..], w);
      assert forall i | 0 < i < |ss| :: ss[i] == ss[1..][i - 1];
    }
  }

  lemma {:induction false} PathsDiffer(q: Q.Query, ss: seq<Spot>)
    requires Increasing(ss, 0)
    ensures NoRepeats(Paths(q, ss))
    decreases |ss|
  {
    hide Q.IsInstance, LexLess;
    if ss != [] {
      var rest := ss[1..];
      assert Increasing(rest, 0) by {
        assert forall i | 0 <= i < |rest| :: rest[i] == ss[i + 1];
      }
      PathsDiffer(q, rest);
      forall w | w in Paths(q, rest)
        ensures w != ss[0].path
      {
        PathsAre(q, rest, w);
        var i :| 0 <= i < |rest| && rest[i].path == w;
        assert LexLess(ss[0].path[0..], ss[i + 1].path[0..]);
        assert ss[0].path[0..] == ss[0].path && w[0..] == w;
        LexLessIrreflexive(w);
      }
      NoRepeatsCons(ss[0].path, Paths(q, rest));
    }
  }

  lemma NoRepeatsCons<T(!new)>(x: T, s: seq<T>)
    requires NoRepeats(s) && x !in s
    ensures NoRepeats([x] + s)
  {
  }

  // ---------------------------------------------------------------- counting entries by document

  ghost function Bag(docs: seq<Doc>, keys: seq<string>, ws: seq<seq<Token>>): multiset<A.FormulaInfo>
    requires AllKnown(docs, keys)
  {
    if ws == [] then multiset{} else multiset(EntriesFor(docs, keys, ws[0])) + Bag(docs, keys, ws[1..])
  }

  ghost function DocBag(codes: Codes, infos: seq<A.FormulaInfo>, ws: seq<seq<Token>>): multiset<A.FormulaInfo>
    requires |codes| == |infos|
  {
    if ws == [] then multiset{} else multiset(EntryIn(codes, infos, ws[0])) + DocBag(codes, infos, ws[1..])
  }

  lemma {:induction false} EntriesAreBag(tree: Trie, data: Data, docs: seq<Doc>, keys: seq<string>, ws: seq<seq<Token>>)
    requires Indexed(tree, data, docs, keys)
    ensures multiset(EntriesAlong(tree, data, ws)) == Bag(docs, keys, ws)
    decreases |ws|
  {
    hide EntriesAt, EntriesFor, IsLeafPath, SomeCode, NoRepeats;
    if ws != [] {
      EntriesAreBag(tree, data, docs, keys, ws[1..]);
      BagConcat(EntriesAt(tree, data, ws[0]), EntriesAlong(tree, data, ws[1..]));
    }
  }

  lemma BagConcat<T>(a: seq<T>, b: seq<T>)
    ensures multiset(a + b) == multiset(a) + multiset(b)
  {
  }

  lemma {:induction false} BagSnoc(docs: seq<Doc>, keys: seq<string>, ws: seq<seq<Token>>)
    requires docs != [] && AllKnown(docs, keys)
    ensures Bag(docs, keys, ws)
         == Bag(Init(docs), keys, ws)
            + DocBag(DocCodes(Last(docs), keys), Last(docs).InfoList(), ws)
    decreases |ws|
  {
    hide DocKnown, DocCodes, EntryIn, Doc.InfoList, Doc.Items;
    if ws != [] {
      BagSnoc(docs, keys, ws[1..]);
      var d := Last(docs);
      BagConcat(EntriesFor(Init(docs), keys, ws[0]),
                EntryIn(DocCodes(d, keys), d.InfoList(), ws[0]));
    }
  }

  /** One more subexpression counts when its code is new and among those asked for. */
  lemma {:induction false} DocBagSnoc(codes: Codes, infos: seq<A.FormulaInfo>, c: Option<seq<Token>>, x: A.FormulaInfo,
                                      ws: seq<seq<Token>>)
    requires |codes| == |infos| && NoRepeats(ws)
    ensures DocBag(codes + [c], infos + [x], ws)
         == DocBag(codes, infos, ws) + if c.Some? && c !in codes && c.value in ws then multiset{x} else multiset{}
    decreases |ws|
  {
    hide EntryIn;
    if ws != [] {
      var rest := ws[1..];
      assert forall i | 0 <= i < |rest| :: rest[i] == ws[i + 1];
      DocBagSnoc(codes, infos, c, x, rest);
      EntryInSnoc(codes, infos, c, x, ws[0]);
      assert ws == [ws[0]] + rest;
      assert ws[0] !in rest;
    }
  }

  lemma EntryInSnoc(codes: Codes, infos: seq<A.FormulaInfo>, c: Option<seq<Token>>, x: A.FormulaInfo, w: seq<Token>)
    requires |codes| == |infos|
    ensures multiset(EntryIn(codes + [c], infos + [x], w))
         == multiset(EntryIn(codes, infos, w)) + if c == Some(w) && c !in codes then multiset{x} else multiset{}
  {
    hide First;
    if Some(w) in codes + [c] {
      FirstSnoc(codes, c, w);
    }
  }

  lemma SameCode(s: Shape, t: Shape, keys: seq<string>)
    requires IdsFit(keys) && Codable(s, keys) && Codable(t, keys) && Code(s, keys) == Code(t, keys)
    ensures s == t
  {
    assert Code(t, keys) + [] == Code(t, keys);
    CodePrefix(s, t, [], keys);
  }

  /** A code is new exactly when its subexpression gets an entry. */
  lemma NewIffGetsEntry(d: Doc, keys: seq<string>, i: nat)
    requires DocKnown(d, keys) && IdsFit(keys) && i < |d.Items()|
    ensures var codes := DocCodes(d, keys);
            codes[i].Some? && codes[i] !in codes[..i] <==> d.GetsEntry(i)
  {
    hide Doc.Items, Doc.ShapeAt, Doc.Enterable, Codable, Code, IdsFit;
    var codes := DocCodes(d, keys);
    forall j | 0 <= j < i && d.Enterable(j) && d.Enterable(i)
      ensures codes[j] == codes[i] <==> d.ShapeAt(j) == d.ShapeAt(i)
    {
      if codes[j] == codes[i] {
        SameCode(d.ShapeAt(j), d.ShapeAt(i), keys);
      }
    }
    assert forall j | 0 <= j < i :: codes[..i][j] == codes[j];
    if codes[i] in codes[..i] {
      var j :| 0 <= j < i && codes[..i][j] == codes[i];
      assert d.Enterable(i) ==> d.Enterable(j);
    }
    if d.Enterable(i) && codes[i] !in codes[..i] {
      forall j | 0 <= j < i && d.Enterable(j)
        ensures d.ShapeAt(j) != d.ShapeAt(i)
      {
        assert codes[..i][j] != codes[i];
      }
    }
  }

  /** The paths are those of the indexed instances. */
  ghost predicate AllFound(q: Q.Query, codes: Codes, ws: seq<seq<Token>>)
  {
    forall i | 0 <= i < |codes| && codes[i].Some? :: codes[i].value in ws <==> Q.IsInstance(q, codes[i].value)
  }

  lemma {:induction false} DocBagIs(d: Doc, c: Asked, e: Expr, head: bool, ws: seq<seq<Token>>, n: nat)
    requires DocKnown(d, c.keys) && n <= |d.Items()| && NoRepeats(ws)
    requires c.items == Flat(e, head) && QueryOf(c) && Q.WellFormedQuery(c.q)
    requires AllFound(c.q, DocCodes(d, c.keys), ws)
    ensures DocBag(DocCodes(d, c.keys)[..n], d.InfoList()[..n], ws)
         == multiset(FromDoc(d, e, head, c.rd, n))
    decreases n
  {
    hide Doc.Items, Doc.ShapeAt, Doc.Enterable, Doc.GetsEntry, Codable, Code, QueryOf, Q.WellFormedQuery, Q.IsInstance,
      IsInstance, NoRepeats, DocKnown, DocCodes, Flat, DocBag, AllFound;
    var codes, infos := DocCodes(d, c.keys), d.InfoList();
    if n == 0 {
      EmptyBag(codes, infos, ws);
    } else {
      var i := n - 1;
      assert codes[..n] == codes[..i] + [codes[i]] && infos[..n] == infos[..i] + [infos[i]];
      DocBagIs(d, c, e, head, ws, i);
      DocBagSnoc(codes[..i], infos[..i], codes[i], infos[i], ws);
      CountsIff(d, c, e, head, ws, i);
      BagConcat(FromDoc(d, e, head, c.rd, i),
                if d.GetsEntry(i) && IsInstance(e, head, d.ShapeAt(i), c.rd) then [d.InfoAt(i)] else []);
    }
  }

  lemma {:induction false} EmptyBag(codes: Codes, infos: seq<A.FormulaInfo>, ws: seq<seq<Token>>)
    requires |codes| == |infos|
    ensures codes[..0] == [] && DocBag(codes[..0], infos[..0], ws) == multiset{}
    decreases |ws|
  {
    if ws != [] {
      EmptyBag(codes, infos, ws[1..]);
    }
  }

  lemma CountsIff(d: Doc, c: Asked, e: Expr, head: bool, ws: seq<seq<Token>>, i: nat)
    requires DocKnown(d, c.keys) && i < |d.Items()|
    requires c.items == Flat(e, head) && QueryOf(c) && Q.WellFormedQuery(c.q)
    requires AllFound(c.q, DocCodes(d, c.keys), ws)
    ensures var codes := DocCodes(d, c.keys);
            codes[i].Some? && codes[i] !in codes[..i] && codes[i].value in ws
            <==> d.GetsEntry(i) && IsInstance(e, head, d.ShapeAt(i), c.rd)
  {
    hide Doc.Items, Doc.ShapeAt, Doc.Enterable, Codable, Code, Q.WellFormedQuery, Q.IsInstance, IsInstance, Flat,
         IdsFit, ReadAsMeant, TokenOf, NumbersAgree, RangesApart;
    NewIffGetsEntry(d, c.keys, i);
    if d.Enterable(i) {
      InstancesAgree(c, e, head, d.ShapeAt(i));
    }
  }

  lemma {:induction false} BagIsExpected(docs: seq<Doc>, c: Asked, e: Expr, head: bool, ws: seq<seq<Token>>)
    requires AllKnown(docs, c.keys) && NoRepeats(ws) && c.items == Flat(e, head) && QueryOf(c) && Q.WellFormedQuery(c.q)
    requires forall k | 0 <= k < |docs| :: AllFound(c.q, DocCodes(docs[k], c.keys), ws)
    ensures Bag(docs, c.keys, ws) == multiset(Expected(docs, e, head, c.rd))
    decreases |docs|
  {
    hide Doc.Items, QueryOf, Q.WellFormedQuery, NoRepeats, DocKnown, DocCodes, Flat, DocBag, AllFound, FromDoc,
         Doc.InfoList;
    if docs == [] {
      NoBag(c.keys, ws);
    } else {
      var d := Last(docs);
      BagSnoc(docs, c.keys, ws);
      BagIsExpected(Init(docs), c, e, head, ws);
      var codes, infos, n := DocCodes(d, c.keys), d.InfoList(), |d.Items()|;
      DocBagIs(d, c, e, head, ws, n);
      assert codes[..n] == codes && infos[..n] == infos;
      BagConcat(Expected(Init(docs), e, head, c.rd), FromDoc(d, e, head, c.rd, n));
    }
  }

  lemma {:induction false} NoBag(keys: seq<string>, ws: seq<seq<Token>>)
    ensures AllKnown([], keys) && Bag([], keys, ws) == multiset{}
    decreases |ws|
  {
    if ws != [] {
      NoBag(keys, ws[1..]);
    }
  }

  // ---------------------------------------------------------------- what is found

  /** The entries of all matches are those of the harvested instances, each as often. */
  lemma MatchesAreExpected(tree: Trie, data: Data, docs: seq<Doc>, c: Asked, e: Expr, head: bool)
    requires WellFormed(tree, 1) && Indexed(tree, data, docs, c.keys)
    requires c.items == Flat(e, head) && QueryOf(c) && Q.WellFormedQuery(c.q)
    ensures multiset(A.AllEntries(data, Matches(c.q, tree))) == multiset(Expected(docs, e, head, c.rd))
  {
    hide *;
    var ss := Leaves([], tree);
    LeavesAt(tree);
    PathsDiffer(c.q, ss);
    EntriesOfMatches(c.q, tree, data, ss);
    MatchesAreInstances(c.q, tree);
    var ws := Paths(c.q, ss);
    EntriesAreBag(tree, data, docs, c.keys, ws);
    IndexedKnown(tree, data, docs, c.keys);
    forall k | 0 <= k < |docs|
      ensures AllFound(c.q, DocCodes(docs[k], c.keys), ws)
    {
      AllFoundIn(tree, data, docs, c.keys, c.q, k);
    }
    BagIsExpected(docs, c, e, head, ws);
  }

  lemma MatchesAreInstances(q: Q.Query, tree: Trie)
    ensures Matches(q, tree) == Instances(q, Leaves([], tree))
  {
  }

  lemma LeavesAt(tree: Trie)
    requires WellFormed(tree, 1)
    ensures var ss := Leaves([], tree);
            && Increasing(ss, 0)
            && forall i | 0 <= i < |ss| :: IsLeafPath(tree, ss[i].path) && LeafAt(tree, ss[i].path) == ss[i].node
  {
    hide Leaves, Increasing, Descend, WellFormed;
    LeavesExact(tree);
    var ss := Leaves([], tree);
    assert forall i | 0 <= i < |ss| :: ss[i] in ss;
  }

  lemma IndexedKnown(tree: Trie, data: Data, docs: seq<Doc>, keys: seq<string>)
    requires Indexed(tree, data, docs, keys)
    ensures AllKnown(docs, keys) && forall k | 0 <= k < |docs| :: DocKnown(docs[k], keys)
  {
  }

  lemma AllFoundIn(tree: Trie, data: Data, docs: seq<Doc>, keys: seq<string>, q: Q.Query, k: nat)
    requires WellFormed(tree, 1) && Indexed(tree, data, docs, keys) && k < |docs|
    ensures DocKnown(docs[k], keys) && AllFound(q, DocCodes(docs[k], keys), Paths(q, Leaves([], tree)))
  {
    hide DocKnown, DocCodes, Q.IsInstance, WellFormed, Leaves, Descend, Paths, EntriesAt, EntriesFor, NoRepeats;
    assert DocKnown(docs[k], keys);
    var codes, ss := DocCodes(docs[k], keys), Leaves([], tree);
    LeavesExact(tree);
    forall i | 0 <= i < |codes| && codes[i].Some?
      ensures codes[i].value in Paths(q, ss) <==> Q.IsInstance(q, codes[i].value)
    {
      var w := codes[i].value;
      assert codes[i] == Some(w);
      assert SomeCode(docs, keys, w);
      PathsAre(q, ss, w);
      assert Spot(w, LeafAt(tree, w)) in ss;
    }
  }

  // ---------------------------------------------------------------- answering a query

  /** All meanings are known, and nothing is too wide. */
  ghost predicate Answerable(items: seq<Item>, keys: seq<string>, known: seq<string>, renameCi: bool)
  {
    && !SomeTooWide(items)
    && forall i | 0 <= i < |items| && IsConstant(items[i]) :: Translated(items[i], known, renameCi) in keys
  }

  ghost function NamesOf(items: seq<Item>): seq<string> {
    AddAll([], VarNames(items))
  }

  /** The way the encoder reads a query: its own names get aliases by first occurrence. */
  ghost function ReadingOf(items: seq<Item>, renameCi: bool, limits: Expr -> Q.Interval,
                           parse: string -> Option<real>): Reading {
    Reading(AddAll([], CiNames(items, renameCi)), renameCi, limits, parse)
  }

  /** The answers are a page of the expected entries in some order, and the total counts all of them. */
  ghost predicate AnswersExpected(result: A.Answset, page: A.Page, expected: seq<A.FormulaInfo>)
  {
    exists all: seq<A.FormulaInfo> ::
      && multiset(all) == multiset(expected)
      && result.total == A.Min(|all|, page.maxTotal)
      && result.answers == A.Slice(all, page.offset, A.Min(page.offset + page.size, page.maxTotal))
  }

  lemma SearchFindsExpected(o: A.Options, page: A.Page, tree: Trie, nextId: nat, data: Data, docs: seq<Doc>, c: Asked,
                            e: Expr, head: bool, result: A.Answset)
    requires WellFormed(tree, 1) && Conserved(tree, nextId, data) && Indexed(tree, data, docs, c.keys)
    requires c.items == Flat(e, head) && QueryOf(c) && Q.WellFormedQuery(c.q)
    requires o.includeHits && page.offset + page.size < TWO_32 && |Expected(docs, e, head, c.rd)| < TWO_32
    requires result == A.Collect(o, data, A.Clamp(page), Matches(c.q, tree), A.NOTHING_FOUND)
    ensures AnswersExpected(result, page, Expected(docs, e, head, c.rd))
  {
    hide A.AllEntries, A.SumHits, A.Collect, A.Slice, A.Clamp, Matches, Indexed, QueryOf, Q.WellFormedQuery, WellFormed,
         Conserved, Expected, Flat, Q.IsInstance;
    var all := A.AllEntries(data, Matches(c.q, tree));
    MatchesAreExpected(tree, data, docs, c, e, head);
    SameCount(all, Expected(docs, e, head, c.rd));
    MatchesCount(tree, nextId, data, c.q);
    A.EntriesCounted(o, data, Matches(c.q, tree));
    SearchOfIndexed(o, page, tree, nextId, data, c.q);
  }

  // ---------------------------------------------------------------- counting instances

  /** The instances of e among the harvested subexpressions that fit, each looks counted once. */
  ghost function InstanceShapes(docs: seq<Doc>, e: Expr, head: bool, rd: Reading): set<Shape> {
    set k, i | 0 <= k < |docs| && 0 <= i < |docs[k].Items()|
        && docs[k].Enterable(i) && IsInstance(e, head, docs[k].ShapeAt(i), rd)
      :: docs[k].ShapeAt(i)
  }

  /** The ids on the page are those of a slice of the instances, in some order. */
  ghost predicate IdsExpected(result: A.Answset, tree: Trie, keys: seq<string>, shapes: set<Shape>, page: A.Page)
  {
    exists ws: seq<seq<Token>> ::
      && NoRepeats(ws) && (forall s | s in shapes :: Codable(s, keys))
      && (forall w :: w in ws <==> exists s :: s in shapes && w == Code(s, keys))
      && (forall w | w in ws :: IsLeafPath(tree, w))
      && result.ids == IdsAt(tree, A.Slice(ws, page.offset, A.Min(page.offset + page.size, page.maxTotal)))
  }

  ghost function IdsAt(tree: Trie, ws: seq<seq<Token>>): set<nat> {
    set w | w in ws && IsLeafPath(tree, w) :: LeafAt(tree, w).id
  }

  /** The paths found are the codes of the instances. */
  lemma PathsAreShapes(tree: Trie, data: Data, docs: seq<Doc>, c: Asked, e: Expr, head: bool, w: seq<Token>)
    requires WellFormed(tree, 1) && Indexed(tree, data, docs, c.keys)
    requires c.items == Flat(e, head) && QueryOf(c) && Q.WellFormedQuery(c.q)
    ensures forall s | s in InstanceShapes(docs, e, head, c.rd) :: Codable(s, c.keys)
    ensures w in Paths(c.q, Leaves([], tree))
       <==> exists s :: s in InstanceShapes(docs, e, head, c.rd) && w == Code(s, c.keys)
  {
    hide Doc.Items, Doc.ShapeAt, Doc.Enterable, Codable, Code, QueryOf, Q.WellFormedQuery, Q.IsInstance, IsInstance,
         WellFormed, Leaves, Descend, Paths, EntriesAt, EntriesFor, NoRepeats, Flat;
    var ss, shapes := Leaves([], tree), InstanceShapes(docs, e, head, c.rd);
    forall k | 0 <= k < |docs|
      ensures DocKnown(docs[k], c.keys)
    {
    }
    PathIsLeaf(tree, c.q, w);
    forall s | s in shapes
      ensures Codable(s, c.keys) && Code(s, c.keys) in Paths(c.q, ss)
    {
      var k, i :| 0 <= k < |docs| && 0 <= i < |docs[k].Items()| && docs[k].Enterable(i)
                  && IsInstance(e, head, docs[k].ShapeAt(i), c.rd) && s == docs[k].ShapeAt(i);
      InstancesAgree(c, e, head, s);
      assert DocCodes(docs[k], c.keys)[i] == Some(Code(s, c.keys));
      PathIsLeaf(tree, c.q, Code(s, c.keys));
    }
    if w in Paths(c.q, ss) {
      var k :| 0 <= k < |docs| && Some(w) in DocCodes(docs[k], c.keys);
      var i :| 0 <= i < |docs[k].Items()| && DocCodes(docs[k], c.keys)[i] == Some(w);
      InstancesAgree(c, e, head, docs[k].ShapeAt(i));
      assert docs[k].ShapeAt(i) in shapes;
    }
  }

  lemma PathIsLeaf(tree: Trie, q: Q.Query, w: seq<Token>)
    requires WellFormed(tree, 1)
    ensures w in Paths(q, Leaves([], tree)) <==> IsLeafPath(tree, w) && Q.IsInstance(q, w)
  {
    hide Q.IsInstance, WellFormed, Leaves, Descend, Paths;
    var ss := Leaves([], tree);
    LeavesExact(tree);
    PathsAre(q, ss, w);
    if IsLeafPath(tree, w) {
      assert Spot(w, LeafAt(tree, w)) in ss;
    }
    if i :| 0 <= i < |ss| && ss[i].path == w {
      assert ss[i] in ss;
    }
  }

  lemma {:induction false} SetSize<T(!new)>(xs: seq<T>)
    requires NoRepeats(xs)
    ensures |set x | x in xs| == |xs|
    decreases |xs|
  {
    if xs != [] {
      var before, x := xs[..|xs| - 1], xs[|xs| - 1];
      assert xs == before + [x] && NoRepeats(before) && x !in before;
      SetSize(before);
      assert (set y | y in xs) == (set y | y in before) + {x};
    }
  }

  /** Different shapes have different codes. */
  lemma {:induction false} CodesAreAsMany(shapes: set<Shape>, keys: seq<string>, codes: set<seq<Token>>)
    requires IdsFit(keys) && (forall s | s in shapes :: Codable(s, keys))
    requires forall w :: w in codes <==> exists s :: s in shapes && w == Code(s, keys)
    ensures |codes| == |shapes|
    decreases shapes
  {
    hide Codable, Code, IdsFit;
    if shapes == {} {
      assert codes == {};
    } else {
      var s :| s in shapes;
      forall t | t in shapes - {s}
        ensures Code(t, keys) != Code(s, keys)
      {
        if Code(t, keys) == Code(s, keys) {
          SameCode(t, s, keys);
        }
      }
      assert Code(s, keys) in codes;
      var fewer := codes - {Code(s, keys)};
      forall w
        ensures w in fewer <==> exists t :: t in shapes - {s} && w == Code(t, keys)
      {
        if w in fewer {
          var t :| t in shapes && w == Code(t, keys);
          assert t in shapes - {s};
        }
      }
      CodesAreAsMany(shapes - {s}, keys, fewer);
    }
  }

  /** As many paths are found as there are different instances. */
  lemma PathsCount(tree: Trie, data: Data, docs: seq<Doc>, c: Asked, e: Expr, head: bool)
    requires WellFormed(tree, 1) && Indexed(tree, data, docs, c.keys)
    requires c.items == Flat(e, head) && QueryOf(c) && Q.WellFormedQuery(c.q)
    ensures |Paths(c.q, Leaves([], tree))| == |InstanceShapes(docs, e, head, c.rd)|
  {
    hide Codable, Code, Q.WellFormedQuery, Q.IsInstance, WellFormed, Indexed, Paths, InstanceShapes, Leaves, Flat,
         IdsFit, TokenOf, ReadAsMeant, NumbersAgree, Increasing, NoRepeats;
    var ws := Paths(c.q, Leaves([], tree));
    LeavesAt(tree);
    PathsDiffer(c.q, Leaves([], tree));
    SetSize(ws);
    PathsAreShapes(tree, data, docs, c, e, head, []);
    forall w
      ensures w in ws <==> exists s :: s in InstanceShapes(docs, e, head, c.rd) && w == Code(s, c.keys)
    {
      PathsAreShapes(tree, data, docs, c, e, head, w);
    }
    CodesAreAsMany(InstanceShapes(docs, e, head, c.rd), c.keys, set w | w in ws);
  }

  lemma {:induction false} MatchAtPath(q: Q.Query, tree: Trie, ss: seq<Spot>)
    requires forall i | 0 <= i < |ss| :: IsLeafPath(tree, ss[i].path) && LeafAt(tree, ss[i].path) == ss[i].node
    ensures |Instances(q, ss)| == |Paths(q, ss)|
    ensures forall i | 0 <= i < |Paths(q, ss)| ::
              IsLeafPath(tree, Paths(q, ss)[i]) && Instances(q, ss)[i] == LeafAt(tree, Paths(q, ss)[i])
    decreases |ss|
  {
    hide Q.IsInstance, IsLeafPath, LeafAt;
    if ss != [] {
      MatchAtPath(q, tree, ss[1..]);
    }
  }

  /** Without their entries the instances are counted, and their ids are a slice. */
  lemma SearchFindsCount(o: A.Options, page: A.Page, tree: Trie, nextId: nat, data: Data, docs: seq<Doc>, c: Asked,
                         e: Expr, head: bool, result: A.Answset)
    requires WellFormed(tree, 1) && Conserved(tree, nextId, data) && Indexed(tree, data, docs, c.keys)
    requires c.items == Flat(e, head) && QueryOf(c) && Q.WellFormedQuery(c.q)
    requires !o.includeHits && page.offset + page.size < TWO_32 && |InstanceShapes(docs, e, head, c.rd)| < TWO_32
    requires result == A.Collect(o, data, A.Clamp(page), Matches(c.q, tree), A.NOTHING_FOUND)
    ensures var shapes := InstanceShapes(docs, e, head, c.rd);
            && result.answers == [] && result.total == A.Min(|shapes|, page.maxTotal)
            && (o.includeMwsIds ==> IdsExpected(result, tree, c.keys, shapes, page))
  {
    hide A.Collect, A.Slice, A.Clamp, A.IdsOf, Matches, Indexed, QueryOf, Q.WellFormedQuery, WellFormed, Increasing,
         Conserved, Flat, Q.IsInstance, InstanceShapes, Leaves, Paths, Codable, Code, IsLeafPath, LeafAt, NoRepeats;
    var ss, ws, leaves := Leaves([], tree), Paths(c.q, Leaves([], tree)), Matches(c.q, tree);
    LeavesAt(tree);
    MatchesAreInstances(c.q, tree);
    MatchAtPath(c.q, tree, ss);
    PathsCount(tree, data, docs, c, e, head);
    MatchesCount(tree, nextId, data, c.q);
    A.LeavesCountOnce(o, leaves);
    A.PageIsSlice(o, data, page, leaves);
    if o.includeMwsIds {
      PathsDiffer(c.q, ss);
      PathsAreShapes(tree, data, docs, c, e, head, []);
      forall w
        ensures w in ws <==> exists s :: s in InstanceShapes(docs, e, head, c.rd) && w == Code(s, c.keys)
      {
        PathsAreShapes(tree, data, docs, c, e, head, w);
      }
      SliceOfIds(tree, leaves, ws, page.offset, A.Min(page.offset + page.size, page.maxTotal));
    }
  }

  lemma SliceOfIds(tree: Trie, leaves: seq<Trie>, ws: seq<seq<Token>>, from: nat, to: nat)
    requires |leaves| == |ws| && forall i | 0 <= i < |ws| :: IsLeafPath(tree, ws[i]) && leaves[i] == LeafAt(tree, ws[i])
    ensures (forall t | t in A.Slice(leaves, from, to) :: t.Leaf?)
         && A.IdsOf(A.Slice(leaves, from, to)) == IdsAt(tree, A.Slice(ws, from, to))
  {
    hide IsLeafPath, LeafAt;
    var ts, us := A.Slice(leaves, from, to), A.Slice(ws, from, to);
    A.SliceIs(leaves, from, to);
    A.SliceIs(ws, from, to);
    hide A.Slice;
    assert |ts| == |us| && forall i | 0 <= i < |us| :: IsLeafPath(tree, us[i]) && ts[i] == LeafAt(tree, us[i]);
    IdsAlong(tree, ts, us);
  }

  lemma IdsAlong(tree: Trie, ts: seq<Trie>, us: seq<seq<Token>>)
    requires |ts| == |us| && forall i | 0 <= i < |us| :: IsLeafPath(tree, us[i]) && ts[i] == LeafAt(tree, us[i])
    ensures (forall t | t in ts :: t.Leaf?) && A.IdsOf(ts) == IdsAt(tree, us)
  {
    hide IsLeafPath, LeafAt;
  }

  lemma SameCount<T>(a: seq<T>, b: seq<T>)
    requires multiset(a) == multiset(b)
    ensures |a| == |b|
  {
    assert |a| == |multiset(a)| && |b| == |multiset(b)|;
  }

  lemma QueryIsCoded(items: seq<Item>, tokens: seq<Token>, keys: seq<string>, known: seq<string>, keys': seq<string>,
                     renameCi: bool)
    requires Encoded(items, tokens, [], keys, known, keys', NamesOf(items), renameCi, false) && IdsFit(keys)
    ensures keys' == keys && known == AddAll([], CiNames(items, renameCi))
    ensures SomeUnknown(items, tokens) <==> !Answerable(items, keys, known, renameCi)
    ensures !SomeUnknown(items, tokens) ==> Coded(items, tokens, known, keys, NamesOf(items), renameCi)
  {
    hide NumberOf, AddAll, VarNames, NoRepeats, CiNames, AnonVars, Ranges, Translated;
    EncodedCovers(items, tokens, [], keys, known, keys', NamesOf(items), renameCi, false);
    forall i | 0 <= i < |items| && IsConstant(items[i])
      ensures |tokens| == |items|
      ensures tokens[i].id == KEY_NOT_FOUND <==> Translated(items[i], known, renameCi) !in keys
    {
      UnknownId(Translated(items[i], known, renameCi), keys);
    }
    forall i | 0 <= i < |items|
      ensures !TooWide(items[i])
    {
    }
  }

  lemma UnknownId(meaning: string, keys: seq<string>)
    requires IdsFit(keys)
    ensures ConstantId(NumberOf(keys, meaning)) == KEY_NOT_FOUND <==> meaning !in keys
  {
  }

  /** The premises of a page without wrap-around, of a search over what was harvested. */
  ghost predicate Searchable(tree: Trie, nextId: nat, data: Data, docs: seq<Doc>, keys: seq<string>, page: A.Page)
  {
    Conserved(tree, nextId, data) && Indexed(tree, data, docs, keys) && page.offset + page.size < TWO_32
  }

  /** What a search over the harvested expressions returns: a page of the expected entries, or without
      entries the number of different instances and the ids of those on the page. */
  ghost predicate Finds(result: A.Answset, tree: Trie, docs: seq<Doc>, keys: seq<string>, query: Item, rd: Reading,
                        options: A.Options, page: A.Page)
  {
    var expected, shapes := Expected(docs, query.e, query.head, rd), InstanceShapes(docs, query.e, query.head, rd);
    && (!options.includeMwsIds ==> result.ids == {})
    && if options.includeHits then |expected| < TWO_32 ==> AnswersExpected(result, page, expected)
       else
         && result.answers == []
         && (|shapes| < TWO_32 ==> result.total == A.Min(|shapes|, page.maxTotal))
         && (|shapes| < TWO_32 && options.includeMwsIds ==> IdsExpected(result, tree, keys, shapes, page))
  }

  /** The constants of an expression with an instance in the dictionary are known and not too wide. */
  lemma {:induction false} InstanceIsKnown(q: Expr, head: bool, s: Shape, f: map<string, Shape>, rd: Reading,
                                           keys: seq<string>, x: Item)
    requires Puts(q, head, s, f, rd) && Codable(s, keys) && Childless(Flat(q, head))
    requires x in Flat(q, head) && IsConstant(x)
    ensures Translated(x, rd.known, rd.renameCi) in keys && !TooWide(x)
    decreases q
  {
    hide Translated, InLimits;
    var it := Item(q, head);
    assert Flat(q, head)[0] == it;
    if x != it {
      var i := F.InKid(q.kids, q.tag == "apply", x);
      F.KidFlat(it, i);
      ChildlessPart(Flat(q, head), Flat(q.kids[i], q.tag == "apply" && i == 0));
      InstanceIsKnown(q.kids[i], q.tag == "apply" && i == 0, s.kids[i], f, rd, keys, x);
    }
  }

  lemma ChildlessPart(items: seq<Item>, part: seq<Item>)
    requires Childless(items) && forall y | y in part :: y in items
    ensures Childless(part)
  {
    forall i | 0 <= i < |part| && !IsConstant(part[i])
      ensures part[i].e.kids == []
    {
      assert part[i] in items;
    }
  }

  /** What cannot be encoded has no instances among what was harvested. */
  lemma UnanswerableIsNotThere(docs: seq<Doc>, keys: seq<string>, query: Item, rd: Reading)
    requires Childless(Flat(query.e, query.head)) && AllKnown(docs, keys)
    requires !Answerable(Flat(query.e, query.head), keys, rd.known, rd.renameCi)
    ensures Expected(docs, query.e, query.head, rd) == [] && InstanceShapes(docs, query.e, query.head, rd) == {}
  {
    hide Doc.Items, Doc.ShapeAt, Doc.Enterable, IsInstance, Expected, Flat;
    forall k, i | 0 <= k < |docs| && 0 <= i < |docs[k].Items()| && docs[k].Enterable(i)
      ensures !IsInstance(query.e, query.head, docs[k].ShapeAt(i), rd)
    {
      assert DocKnown(docs[k], keys);
      NotAnInstance(docs[k].ShapeAt(i), keys, query, rd);
    }
    NothingExpected(docs, query.e, query.head, rd);
  }

  lemma NotAnInstance(s: Shape, keys: seq<string>, query: Item, rd: Reading)
    requires Childless(Flat(query.e, query.head)) && Codable(s, keys)
    requires !Answerable(Flat(query.e, query.head), keys, rd.known, rd.renameCi)
    ensures !IsInstance(query.e, query.head, s, rd)
  {
    hide Codable, Puts, Translated, Childless, Flat;
    var items := Flat(query.e, query.head);
    var x :| x in items && IsConstant(x) && (TooWide(x) || Translated(x, rd.known, rd.renameCi) !in keys);
    forall f: map<string, Shape>
      ensures !Puts(query.e, query.head, s, f, rd)
    {
      if Puts(query.e, query.head, s, f, rd) {
        InstanceIsKnown(query.e, query.head, s, f, rd, keys, x);
      }
    }
  }

  lemma {:induction false} NothingExpected(docs: seq<Doc>, e: Expr, head: bool, rd: Reading)
    requires forall k, i | 0 <= k < |docs| && 0 <= i < |docs[k].Items()| && docs[k].Enterable(i) ::
               !IsInstance(e, head, docs[k].ShapeAt(i), rd)
    ensures Expected(docs, e, head, rd) == []
    decreases |docs|
  {
    hide Doc.Items, Doc.ShapeAt, Doc.Enterable, IsInstance;
    if docs != [] {
      NothingExpected(Init(docs), e, head, rd);
      NothingFromDoc(Last(docs), e, head, rd, |Last(docs).Items()|);
    }
  }

  lemma {:induction false} NothingFromDoc(d: Doc, e: Expr, head: bool, rd: Reading, n: nat)
    requires n <= |d.Items()|
    requires forall i | 0 <= i < |d.Items()| && d.Enterable(i) :: !IsInstance(e, head, d.ShapeAt(i), rd)
    ensures FromDoc(d, e, head, rd, n) == []
    decreases n
  {
    hide Doc.Items, Doc.ShapeAt, Doc.Enterable, IsInstance;
    if n > 0 {
      NothingFromDoc(d, e, head, rd, n - 1);
    }
  }

  lemma NothingFinds(tree: Trie, nextId: nat, data: Data, docs: seq<Doc>, keys: seq<string>, query: Item, rd: Reading,
                     o: A.Options, page: A.Page)
    requires Searchable(tree, nextId, data, docs, keys, page) && Childless(Flat(query.e, query.head))
    requires !Answerable(Flat(query.e, query.head), keys, rd.known, rd.renameCi)
    ensures Finds(A.NOTHING_FOUND, tree, docs, keys, query, rd, o, page)
  {
    hide Flat, Expected, InstanceShapes, Answerable, Childless, Codable;
    IndexedKnown(tree, data, docs, keys);
    UnanswerableIsNotThere(docs, keys, query, rd);
    NothingOnPage(tree, keys, page);
  }

  lemma NothingOnPage(tree: Trie, keys: seq<string>, page: A.Page)
    ensures AnswersExpected(A.NOTHING_FOUND, page, []) && IdsExpected(A.NOTHING_FOUND, tree, keys, {}, page)
  {
    hide Codable, Code, IsLeafPath, LeafAt;
    var none: seq<A.FormulaInfo>, ws: seq<seq<Token>> := [], [];
    assert A.Slice(none, page.offset, A.Min(page.offset + page.size, page.maxTotal)) == [];
    assert multiset(none) == multiset{};
    assert A.Slice(ws, page.offset, A.Min(page.offset + page.size, page.maxTotal)) == [];
    assert IdsAt(tree, []) == {};
    assert NoRepeats(ws);
  }

  lemma SearchFinds(o: A.Options, page: A.Page, tree: Trie, nextId: nat, data: Data, docs: seq<Doc>, c: Asked,
                    query: Item, result: A.Answset)
    requires WellFormed(tree, 1) && Searchable(tree, nextId, data, docs, c.keys, page)
    requires c.items == Flat(query.e, query.head) && QueryOf(c) && Q.WellFormedQuery(c.q)
    requires result == A.Collect(o, data, A.Clamp(page), Matches(c.q, tree), A.NOTHING_FOUND)
    ensures Finds(result, tree, docs, c.keys, query, c.rd, o, page)
  {
    hide A.AllEntries, A.SumHits, A.Collect, A.Slice, A.Clamp, Matches, Indexed, QueryOf, Q.WellFormedQuery, WellFormed,
         Conserved, Expected, Flat, Q.IsInstance, InstanceShapes, AnswersExpected, IdsExpected;
    MatchesCount(tree, nextId, data, c.q);
    A.NothingUnasked(o, data, A.Clamp(page), Matches(c.q, tree), A.NOTHING_FOUND);
    if o.includeHits && |Expected(docs, query.e, query.head, c.rd)| < TWO_32 {
      SearchFindsExpected(o, page, tree, nextId, data, docs, c, query.e, query.head, result);
    }
    if !o.includeHits && |InstanceShapes(docs, query.e, query.head, c.rd)| < TWO_32 {
      SearchFindsCount(o, page, tree, nextId, data, docs, c, query.e, query.head, result);
    }
  }

  /** Encodes a query expression and searches for it; what cannot be encoded has no answers. */
  method HandleQuery(dictionary: IdDictionary, renameCi: bool, ix: Index, db: A.MemFormulaDb, query: Item,
                     options: A.Options, page: A.Page, limits: Expr -> Q.Interval, parse: string -> Option<real>,
                     ghost docs: seq<Doc>, ghost nextId: nat)
      returns (result: A.Answset)
    requires dictionary.Valid() && IdsFit(dictionary.keys)
    requires IsIndex(ix) && WellFormed(View(ix, GetRootNode(ix)), 1)
    requires var items := Flat(query.e, query.head);
             Childless(items) && EnoughIds(items, NamesOf(items))
    modifies dictionary
    ensures dictionary.Valid() && dictionary.keys == old(dictionary.keys) && db.data == old(db.data)
    ensures var items := Flat(query.e, query.head);
            !Answerable(items, dictionary.keys, AddAll([], CiNames(items, renameCi)), renameCi) ==>
              result == A.NOTHING_FOUND
    ensures var items, tree := Flat(query.e, query.head), View(ix, GetRootNode(ix));
            var rd := ReadingOf(items, renameCi, limits, parse);
            && (Answerable(items, dictionary.keys, rd.known, renameCi) ==> InBands(items, NamesOf(items)))
            && Searchable(tree, nextId, db.data, docs, dictionary.keys, page)
            ==> Finds(result, tree, docs, dictionary.keys, query, rd, options, page)
  {
    hide Answerable, InBands, EnoughIds, Childless, Flat, Ranges, Searchable, Finds, NumbersOf,
         NamesOf, Encoded, SomeUnknown, SomeTooWide, View, WellFormed, Matches, Coded, IdsFit, Prepared, QueryOf,
         Q.WellFormedQuery, A.Collect, A.Clamp, SearchContext.Valid, NumberOf, NoRepeats, AddAll, VarNames, CiNames,
         NumbersAgree, RangeBounds;
    var encoder := new ExpressionEncoder(dictionary, false);
    ghost var items := Flat(query.e, query.head);
    var rv, tokens := encoder.Encode(renameCi, query);
    NamesAre(items);
    if SomeTooWide(items) {
      TooWideUnanswerable(items, dictionary.keys, AddAll([], CiNames(items, renameCi)), renameCi);
    } else {
      QueryIsCoded(items, tokens, old(dictionary.keys), encoder.known, dictionary.keys, renameCi);
    }
    ghost var rd, tree := ReadingOf(items, renameCi, limits, parse), View(ix, GetRootNode(ix));
    if rv != 0 {
      if Searchable(tree, nextId, db.data, docs, dictionary.keys, page) {
        NothingFinds(tree, nextId, db.data, docs, dictionary.keys, query, rd, options, page);
      }
      return A.NOTHING_FOUND;
    }
    var table := dictionary.GetReverseLookupTable();
    NumbersOfAgree(table, parse);
    var context := new SearchContext(tokens, options, RangeBounds(Flat(query.e, query.head), limits),
                                     NumbersOf(table, parse));
    ghost var c := Asked(items, context.TheQuery(), dictionary.keys, rd);
    PreparedIsQuery(c, query.e, query.head, tokens, NamesOf(items));
    result := context.GetResult(ix, db, page);
    if InBands(items, NamesOf(items)) && Searchable(tree, nextId, db.data, docs, dictionary.keys, page) {
      SearchFinds(options, page, tree, nextId, db.data, docs, c, query, result);
    }
  }

  lemma NamesAre(items: seq<Item>)
    ensures NamesOf(items) == AddAll([], VarNames(items))
  {
  }

  lemma TooWideUnanswerable(items: seq<Item>, keys: seq<string>, known: seq<string>, renameCi: bool)
    requires SomeTooWide(items)
    ensures !Answerable(items, keys, known, renameCi)
  {
  }
}
