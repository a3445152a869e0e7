/** What a search returns, stated over the tags, texts and children of the harvested expressions. */
module FormulaSearch {
  import opened Tokens
  import opened Tries
  import opened Expressions
  import opened CiRenaming
  import opened ExpressionEncoders
  import opened AlphaEncoding
  import opened ExpressionInstances
  import opened Libraries
  import opened ExpressionSearch
  import opened Formulae
  import opened Wrappers
  import IndexBuilders
  import A = Answers

  /** Expressions without variables and ranges, and without '#' in their tags. */
  ghost predicate PlainDoc(d: Doc)
  {
    Ground(d.Items()) && PlainTags(d.math.e)
  }

  /** Subexpression i can be encoded, and no earlier one that can is the same formula. */
  ghost predicate FirstOfKind(d: Doc, i: nat)
    requires i < |d.Items()|
  {
    && Narrow(d.Items()[i].e)
    && forall j | 0 <= j < i && Narrow(d.Items()[j].e) ::
         !SameFormula(d.Items()[j], d.Items()[i], d.known, d.known, d.renameCi)
  }

  /** One entry for each formula among the subexpressions before n that is an instance of q: the
      expression's data and the place where the formula stands first. */
  ghost function FormulaEntries(d: Doc, q: Item, rd: Reading, n: nat): seq<A.FormulaInfo>
    requires n <= |d.Items()|
  {
    if n == 0 then []
    else
      FormulaEntries(d, q, rd, n - 1)
      + if FirstOfKind(d, n - 1) && IsInstanceOf(q, d.Items()[n - 1], rd, d.known)
        then [A.FormulaInfo(d.crawlId, d.xmlId, d.Items()[n - 1].e.xpath)] else []
  }

  ghost function AllFormulaEntries(docs: seq<Doc>, q: Item, rd: Reading): seq<A.FormulaInfo>
    decreases |docs|
  {
    if docs == [] then []
    else AllFormulaEntries(Init(docs), q, rd) + FormulaEntries(Last(docs), q, rd, |Last(docs).Items()|)
  }

  /** A subexpression of a harvested expression. */
  datatype Place = Place(doc: nat, i: nat)

  ghost predicate IsPlace(docs: seq<Doc>, p: Place)
  {
    p.doc < |docs| && p.i < |docs[p.doc].Items()|
  }

  ghost predicate InstanceAt(docs: seq<Doc>, p: Place, q: Item, rd: Reading)
    requires IsPlace(docs, p)
  {
    var d := docs[p.doc];
    Narrow(d.Items()[p.i].e) && IsInstanceOf(q, d.Items()[p.i], rd, d.known)
  }

  ghost predicate SameAt(docs: seq<Doc>, p: Place, r: Place)
    requires IsPlace(docs, p) && IsPlace(docs, r)
  {
    var a, b := docs[p.doc], docs[r.doc];
    SameFormula(a.Items()[p.i], b.Items()[r.i], a.known, b.known, a.renameCi)
  }

  /** One place for each formula that is an instance of q. */
  ghost predicate Representatives(docs: seq<Doc>, q: Item, rd: Reading, reps: seq<Place>)
  {
    && (forall a | 0 <= a < |reps| :: IsPlace(docs, reps[a]) && InstanceAt(docs, reps[a], q, rd))
    && (forall a, b | 0 <= a < b < |reps| :: !SameAt(docs, reps[a], reps[b]))
    && forall p | IsPlace(docs, p) && InstanceAt(docs, p, q, rd) ::
         exists a :: 0 <= a < |reps| && SameAt(docs, reps[a], p)
  }

  /** With entries, a page of those of all instances in some order and their number; without, the number
      of different formulae that are instances. */
  ghost predicate FindsFormulae(result: A.Answset, docs: seq<Doc>, q: Item, rd: Reading, options: A.Options,
                                page: A.Page)
  {
    && (!options.includeMwsIds ==> result.ids == {})
    && if options.includeHits then
         var entries := AllFormulaEntries(docs, q, rd);
         |entries| < TWO_32 ==> AnswersExpected(result, page, entries)
       else
         && result.answers == []
         && exists reps :: Representatives(docs, q, rd, reps)
                           && (|reps| < TWO_32 ==> result.total == A.Min(|reps|, page.maxTotal))
  }

  // ---------------------------------------------------------------- shapes and formulae

  /** What is known of the subexpressions of a plain expression. */
  lemma PlainAt(d: Doc, i: nat)
    requires PlainDoc(d) && i < |d.Items()|
    ensures PlainTags(d.Items()[i].e) && (Narrow(d.Items()[i].e) <==> d.Enterable(i))
  {
    hide Narrow, PlainTags, SomeTooWide, IsConstant;
    PlainItems(d.math);
    var it, items := d.Items()[i], d.Items();
    assert it in items;
    IndexBuilders.GroundBelow(d.math, it);
    NarrowIff(it.e, it.head);
  }

  lemma ShapeIsFormula(a: Doc, i: nat, b: Doc, j: nat)
    requires PlainDoc(a) && PlainDoc(b) && i < |a.Items()| && j < |b.Items()| && a.renameCi == b.renameCi
    ensures a.ShapeAt(i) == b.ShapeAt(j) <==> SameFormula(a.Items()[i], b.Items()[j], a.known, b.known, a.renameCi)
  {
    hide Doc.Items, PlainDoc, Stored, SameFormula;
    PlainAt(a, i);
    PlainAt(b, j);
    StoredIsFormula(a.Items()[i], b.Items()[j], a.known, b.known, a.renameCi);
  }

  lemma InstanceIsFormula(d: Doc, i: nat, q: Item, rd: Reading)
    requires PlainDoc(d) && PlainTags(q.e) && i < |d.Items()| && d.renameCi == rd.renameCi
    ensures d.Enterable(i) && IsInstance(q.e, q.head, d.ShapeAt(i), rd)
       <==> Narrow(d.Items()[i].e) && IsInstanceOf(q, d.Items()[i], rd, d.known)
  {
    hide Doc.Items, Doc.Enterable, PlainDoc, Stored, IsInstance, IsInstanceOf, Narrow;
    PlainAt(d, i);
    InstancesAreOfFormulae(q, d.Items()[i], rd, d.known);
  }

  lemma {:induction false} FromDocIs(d: Doc, q: Item, rd: Reading, n: nat)
    requires PlainDoc(d) && PlainTags(q.e) && n <= |d.Items()| && d.renameCi == rd.renameCi
    ensures FromDoc(d, q.e, q.head, rd, n) == FormulaEntries(d, q, rd, n)
    decreases n
  {
    hide Doc.Items, Doc.Enterable, PlainDoc, Doc.ShapeAt, IsInstance, IsInstanceOf, Narrow, SameFormula;
    if n > 0 {
      var i := n - 1;
      FromDocIs(d, q, rd, i);
      InstanceIsFormula(d, i, q, rd);
      forall j | 0 <= j <= i
        ensures Narrow(d.Items()[j].e) <==> d.Enterable(j)
        ensures d.ShapeAt(j) == d.ShapeAt(i) <==> SameFormula(d.Items()[j], d.Items()[i], d.known, d.known, d.renameCi)
      {
        PlainAt(d, j);
        ShapeIsFormula(d, j, d, i);
      }
    }
  }

  ghost predicate AllPlain(docs: seq<Doc>, renameCi: bool)
  {
    forall k | 0 <= k < |docs| :: PlainDoc(docs[k]) && docs[k].renameCi == renameCi
  }

  /** The expected entries are those of formulae. */
  lemma {:induction false} ExpectedIs(docs: seq<Doc>, q: Item, rd: Reading)
    requires AllPlain(docs, rd.renameCi) && PlainTags(q.e)
    ensures Expected(docs, q.e, q.head, rd) == AllFormulaEntries(docs, q, rd)
    decreases |docs|
  {
    hide Doc.Items, PlainDoc, FromDoc, FormulaEntries;
    if docs != [] {
      ExpectedIs(Init(docs), q, rd);
      FromDocIs(Last(docs), q, rd, |Last(docs).Items()|);
    }
  }

  // ---------------------------------------------------------------- one place for each formula

  ghost function ShapeOfPlace(docs: seq<Doc>, p: Place): Shape
    requires IsPlace(docs, p)
  {
    docs[p.doc].ShapeAt(p.i)
  }

  /** The places in reps have the given shapes, one each. */
  ghost predicate OneEach(docs: seq<Doc>, reps: seq<Place>, shapes: set<Shape>)
  {
    && |reps| == |shapes|
    && (forall a | 0 <= a < |reps| :: IsPlace(docs, reps[a]) && ShapeOfPlace(docs, reps[a]) in shapes)
    && (forall a, b | 0 <= a < b < |reps| :: ShapeOfPlace(docs, reps[a]) != ShapeOfPlace(docs, reps[b]))
    && forall s | s in shapes :: exists a :: 0 <= a < |reps| && ShapeOfPlace(docs, reps[a]) == s
  }

  ghost predicate GoodPlace(docs: seq<Doc>, p: Place, q: Item, rd: Reading)
  {
    IsPlace(docs, p) && docs[p.doc].Enterable(p.i) && IsInstance(q.e, q.head, ShapeOfPlace(docs, p), rd)
  }

  lemma {:induction false} PickPlaces(docs: seq<Doc>, q: Item, rd: Reading, shapes: set<Shape>)
      returns (reps: seq<Place>)
    requires forall s | s in shapes :: exists p :: GoodPlace(docs, p, q, rd) && ShapeOfPlace(docs, p) == s
    ensures OneEach(docs, reps, shapes) && forall a | 0 <= a < |reps| :: GoodPlace(docs, reps[a], q, rd)
    decreases shapes
  {
    hide Doc.Items, Doc.Enterable, Doc.ShapeAt, IsInstance, ShapeOfPlace, OneEach;
    reps := [];
    if shapes == {} {
      NoPlaces(docs);
    } else {
      var s :| s in shapes;
      var p :| GoodPlace(docs, p, q, rd) && ShapeOfPlace(docs, p) == s;
      reps := PickPlaces(docs, q, rd, shapes - {s});
      OneMore(docs, reps, shapes, s, p);
      reps := reps + [p];
    }
  }

  lemma NoPlaces(docs: seq<Doc>)
    ensures OneEach(docs, [], {})
  {
  }

  lemma OneMore(docs: seq<Doc>, reps: seq<Place>, shapes: set<Shape>, s: Shape, p: Place)
    requires s in shapes && OneEach(docs, reps, shapes - {s}) && IsPlace(docs, p) && ShapeOfPlace(docs, p) == s
    ensures OneEach(docs, reps + [p], shapes)
  {
    hide IsPlace, ShapeOfPlace;
    var reps' := reps + [p];
    forall t | t in shapes
      ensures exists a :: 0 <= a < |reps'| && ShapeOfPlace(docs, reps'[a]) == t
    {
      if t == s {
        assert reps'[|reps|] == p;
      } else {
        assert t in shapes - {s};
        var a :| 0 <= a < |reps| && ShapeOfPlace(docs, reps[a]) == t;
        assert reps'[a] == reps[a];
      }
    }
  }

  lemma ShapesHavePlaces(docs: seq<Doc>, q: Item, rd: Reading, s: Shape)
    ensures s in InstanceShapes(docs, q.e, q.head, rd)
       <==> exists p :: GoodPlace(docs, p, q, rd) && ShapeOfPlace(docs, p) == s
  {
    hide Doc.Items, Doc.Enterable, Doc.ShapeAt, IsInstance;
    if s in InstanceShapes(docs, q.e, q.head, rd) {
      var k, i :| 0 <= k < |docs| && 0 <= i < |docs[k].Items()| && docs[k].Enterable(i)
                  && IsInstance(q.e, q.head, docs[k].ShapeAt(i), rd) && s == docs[k].ShapeAt(i);
      assert GoodPlace(docs, Place(k, i), q, rd);
    }
  }

  lemma GoodIsInstance(docs: seq<Doc>, p: Place, q: Item, rd: Reading)
    requires AllPlain(docs, rd.renameCi) && PlainTags(q.e) && IsPlace(docs, p)
    ensures GoodPlace(docs, p, q, rd) <==> InstanceAt(docs, p, q, rd)
  {
    hide Doc.Items, Doc.Enterable, Doc.ShapeAt, IsInstance, IsInstanceOf, Narrow, PlainDoc;
    InstanceIsFormula(docs[p.doc], p.i, q, rd);
  }

  lemma SameIsShape(docs: seq<Doc>, p: Place, r: Place, renameCi: bool)
    requires AllPlain(docs, renameCi) && IsPlace(docs, p) && IsPlace(docs, r)
    ensures ShapeOfPlace(docs, p) == ShapeOfPlace(docs, r) <==> SameAt(docs, p, r)
  {
    hide Doc.Items, Doc.ShapeAt, PlainDoc, SameFormula;
    ShapeIsFormula(docs[p.doc], p.i, docs[r.doc], r.i);
  }

  /** There are as many instance shapes as different formulae that are instances. */
  lemma ShapesAreFormulae(docs: seq<Doc>, q: Item, rd: Reading) returns (reps: seq<Place>)
    requires AllPlain(docs, rd.renameCi) && PlainTags(q.e)
    ensures Representatives(docs, q, rd, reps) && |reps| == |InstanceShapes(docs, q.e, q.head, rd)|
  {
    hide GoodPlace, ShapeOfPlace, InstanceShapes, Representatives, AllPlain, PlainTags;
    var shapes := InstanceShapes(docs, q.e, q.head, rd);
    PlacesForShapes(docs, q, rd);
    reps := PickPlaces(docs, q, rd, shapes);
    PlacesRepresent(docs, q, rd, reps);
  }

  lemma PlacesForShapes(docs: seq<Doc>, q: Item, rd: Reading)
    ensures forall s | s in InstanceShapes(docs, q.e, q.head, rd) ::
              exists p :: GoodPlace(docs, p, q, rd) && ShapeOfPlace(docs, p) == s
  {
    hide Doc.Items, Doc.Enterable, Doc.ShapeAt, IsInstance, InstanceShapes;
    forall s | s in InstanceShapes(docs, q.e, q.head, rd)
      ensures exists p :: GoodPlace(docs, p, q, rd) && ShapeOfPlace(docs, p) == s
    {
      ShapesHavePlaces(docs, q, rd, s);
    }
  }

  lemma PlacesRepresent(docs: seq<Doc>, q: Item, rd: Reading, reps: seq<Place>)
    requires AllPlain(docs, rd.renameCi) && PlainTags(q.e)
    requires OneEach(docs, reps, InstanceShapes(docs, q.e, q.head, rd))
    requires forall a | 0 <= a < |reps| :: GoodPlace(docs, reps[a], q, rd)
    ensures Representatives(docs, q, rd, reps)
  {
    hide OneEach, AllPlain, InstanceAt, SameAt, ShapeOfPlace, InstanceShapes, IsPlace, PlainTags, Doc.Enterable,
         IsInstance;
    forall a | 0 <= a < |reps|
      ensures IsPlace(docs, reps[a]) && InstanceAt(docs, reps[a], q, rd)
    {
      GoodIsInstance(docs, reps[a], q, rd);
    }
    forall a, b | 0 <= a < b < |reps|
      ensures !SameAt(docs, reps[a], reps[b])
    {
      ShapesDiffer(docs, reps, InstanceShapes(docs, q.e, q.head, rd), a, b);
      SameIsShape(docs, reps[a], reps[b], rd.renameCi);
    }
    forall p | IsPlace(docs, p) && InstanceAt(docs, p, q, rd)
      ensures exists a :: 0 <= a < |reps| && SameAt(docs, reps[a], p)
    {
      Represented(docs, q, rd, reps, p);
    }
  }

  lemma ShapesDiffer(docs: seq<Doc>, reps: seq<Place>, shapes: set<Shape>, a: nat, b: nat)
    requires OneEach(docs, reps, shapes) && a < b < |reps|
    ensures IsPlace(docs, reps[a]) && IsPlace(docs, reps[b])
    ensures ShapeOfPlace(docs, reps[a]) != ShapeOfPlace(docs, reps[b])
  {
    hide ShapeOfPlace, IsPlace;
  }

  lemma Represented(docs: seq<Doc>, q: Item, rd: Reading, reps: seq<Place>, p: Place)
    requires AllPlain(docs, rd.renameCi) && PlainTags(q.e)
    requires OneEach(docs, reps, InstanceShapes(docs, q.e, q.head, rd))
    requires IsPlace(docs, p) && InstanceAt(docs, p, q, rd)
    ensures exists a :: 0 <= a < |reps| && IsPlace(docs, reps[a]) && SameAt(docs, reps[a], p)
  {
    hide AllPlain, InstanceAt, SameAt, GoodPlace, ShapeOfPlace, InstanceShapes, IsPlace, PlainTags;
    GoodIsInstance(docs, p, q, rd);
    ShapesHavePlaces(docs, q, rd, ShapeOfPlace(docs, p));
    var a :| 0 <= a < |reps| && ShapeOfPlace(docs, reps[a]) == ShapeOfPlace(docs, p);
    SameIsShape(docs, reps[a], p, rd.renameCi);
  }

  /** What a search finds, stated over formulae. */
  lemma FindsAreFormulae(result: A.Answset, tree: Trie, docs: seq<Doc>, keys: seq<string>, q: Item, rd: Reading,
                         options: A.Options, page: A.Page)
    requires AllPlain(docs, rd.renameCi) && PlainTags(q.e) && Finds(result, tree, docs, keys, q, rd, options, page)
    ensures FindsFormulae(result, docs, q, rd, options, page)
  {
    hide AllPlain, Expected, AllFormulaEntries, InstanceShapes, Representatives, AnswersExpected, IdsExpected;
    ExpectedIs(docs, q, rd);
    var reps := ShapesAreFormulae(docs, q, rd);
  }
}
