/** From a harvest document to answers: the expressions of the document as the index builder gets them, and the
    places that their entries name. */
module DocumentQueries {
  import opened Expressions
  import opened ExpressionEncoders
  import opened AlphaEncoding
  import opened SchemaHashes
  import opened Harvests
  import opened HarvestDocuments
  import opened Libraries
  import opened HarvestQueries
  import opened Wrappers
  import Formulae
  import FormulaSearch
  import HarvestParsers

  const ROOT_XPATH := "/*[1]"

  function Step(i: nat): string {
    "/*[" + Decimal(i) + "]"
  }

  /** A token tree with the xpath of each token: its parent's and its number among the children. */
  function ExprOf(t: Tok, xpath: string): Expr
    decreases t, 0
  {
    Expr(t.tag, t.text, if "name" in t.attrs then Some(t.attrs["name"]) else None, xpath, ExprsOf(t.kids, xpath, 1))
  }

  function ExprsOf(ts: seq<Tok>, xpath: string, i: nat): (r: seq<Expr>)
    ensures |r| == |ts|
    decreases ts, 1
  {
    if ts == [] then [] else [ExprOf(ts[0], xpath + Step(i))] + ExprsOf(ts[1..], xpath, i + 1)
  }

  // ---------------------------------------------------------------- places

  /** The element that x contains at a path: at each step the element with the given number, counted from 1. */
  ghost function ElementAt(x: Xml, path: seq<nat>): Option<Xml>
    decreases |path|
  {
    if path == [] then (if x.Element? then Some(x) else None)
    else if x.Element? && 0 < path[0] <= |Elements(x.kids)| then ElementAt(Elements(x.kids)[path[0] - 1], path[1..])
    else None
  }

  ghost function XpathOf(path: seq<nat>): string
    decreases |path|
  {
    if path == [] then "" else "/*[" + Decimal(path[0]) + "]" + XpathOf(path[1..])
  }

  /** e is the element x as an expression: its name without the prefix, its visible characters, its attribute
      name, and the elements directly in it. */
  ghost predicate StandsFor(e: Expr, x: Xml)
    decreases x
  {
    && x.Element? && ("m:" + e.tag == x.name || (e.tag == x.name && !("m:" <= x.name)))
    && e.text == Visible(TextIn(x.kids)) && (forall v :: e.name == Some(v) <==> FirstAttr(x.attrs, "name", v))
    && |e.kids| == |Elements(x.kids)|
    && forall k | 0 <= k < |e.kids| :: StandsFor(e.kids[k], Elements(x.kids)[k])
  }

  lemma {:induction false} TreeStandsFor(t: Tok, x: Xml, xpath: string)
    requires IsTree(t, x)
    ensures StandsFor(ExprOf(t, xpath), x)
    decreases t, 0
  {
    hide Visible, TextIn, FirstAttr, Elements, ExprsOf;
    TreesStandFor(t.kids, Elements(x.kids), xpath, 1);
  }

  lemma {:induction false} TreesStandFor(ts: seq<Tok>, ys: seq<Xml>, xpath: string, i: nat)
    requires |ts| == |ys| && forall k | 0 <= k < |ts| :: IsTree(ts[k], ys[k])
    ensures forall k | 0 <= k < |ts| :: StandsFor(ExprsOf(ts, xpath, i)[k], ys[k])
    decreases ts, 1
  {
    hide IsTree, StandsFor, ExprOf, Step;
    if ts != [] {
      TreeStandsFor(ts[0], ys[0], xpath + Step(i));
      TreesStandFor(ts[1..], ys[1..], xpath, i + 1);
      forall k | 0 <= k < |ts|
        ensures StandsFor(ExprsOf(ts, xpath, i)[k], ys[k])
      {
        if k > 0 {
          assert StandsFor(ExprsOf(ts[1..], xpath, i + 1)[k - 1], ys[1..][k - 1]);
        }
      }
    }
  }

  /** e stands for the element at the place that its xpath, which begins as given, names. */
  ghost predicate NamesPlace(x: Xml, e: Expr, xpath: string)
  {
    exists path: seq<nat> :: NamesPlaceAt(x, e, xpath, path)
  }

  ghost predicate NamesPlaceAt(x: Xml, e: Expr, xpath: string, path: seq<nat>)
  {
    e.xpath == xpath + XpathOf(path) && ElementAt(x, path).Some? && StandsFor(e, ElementAt(x, path).value)
  }

  lemma OneStep(x: Xml, k: nat, e: Expr, xpath: string)
    requires x.Element? && k < |Elements(x.kids)| && NamesPlace(Elements(x.kids)[k], e, xpath + Step(k + 1))
    ensures NamesPlace(x, e, xpath)
  {
    hide StandsFor, Elements, Decimal;
    var y := Elements(x.kids)[k];
    var path: seq<nat> :| NamesPlaceAt(y, e, xpath + Step(k + 1), path);
    var longer := [k + 1] + path;
    assert longer[1..] == path;
    assert XpathOf(longer) == Step(k + 1) + XpathOf(path);
    assert (xpath + Step(k + 1)) + XpathOf(path) == xpath + XpathOf(longer);
    assert ElementAt(x, longer) == ElementAt(y, path);
    assert NamesPlaceAt(x, e, xpath, longer);
  }

  /** The xpath of every subexpression names the place where it stands in the document. */
  lemma {:induction false} PlacesNamed(x: Xml, t: Tok, xpath: string, head: bool, it: Item)
    requires IsTree(t, x) && it in Flat(ExprOf(t, xpath), head)
    ensures NamesPlace(x, it.e, xpath)
    decreases t, 0
  {
    hide Flat, FlatAll, Step, StandsFor;
    var e := ExprOf(t, xpath);
    FlatParts(e, head, it);
    if it == Item(e, head) {
      assert xpath + XpathOf([]) == xpath;
      assert ElementAt(x, []) == Some(x);
      TreeStandsFor(t, x, xpath);
      assert NamesPlaceAt(x, it.e, xpath, []);
    } else {
      PlacesNamedAll(x, t.kids, 0, xpath, e.tag == "apply", it);
    }
  }

  lemma FlatParts(e: Expr, head: bool, it: Item)
    requires it in Flat(e, head)
    ensures it == Item(e, head) || it in FlatAll(e.kids, e.tag == "apply")
  {
  }

  lemma {:induction false} PlacesNamedAll(x: Xml, ts: seq<Tok>, k: nat, xpath: string, head: bool, it: Item)
    requires x.Element? && k + |ts| == |Elements(x.kids)|
    requires forall i | 0 <= i < |ts| :: IsTree(ts[i], Elements(x.kids)[k + i])
    requires it in FlatAll(ExprsOf(ts, xpath, k + 1), head)
    ensures NamesPlace(x, it.e, xpath)
    decreases ts, 1
  {
    hide Flat, Step, IsTree, Elements, NamesPlace;
    var es := ExprsOf(ts, xpath, k + 1);
    if it in Flat(es[0], head) {
      assert IsTree(ts[0], Elements(x.kids)[k + 0]);
      PlacesNamed(Elements(x.kids)[k], ts[0], xpath + Step(k + 1), head, it);
      OneStep(x, k, it.e, xpath);
    } else {
      assert es[1..] == ExprsOf(ts[1..], xpath, k + 2);
      forall i | 0 <= i < |ts| - 1
        ensures IsTree(ts[1..][i], Elements(x.kids)[k + 1 + i])
      {
        assert IsTree(ts[i + 1], Elements(x.kids)[k + (i + 1)]);
      }
      PlacesNamedAll(x, ts[1..], k + 1, xpath, false, it);
    }
  }

  lemma FirstBracket(d: string, rest: string, i: nat)
    requires ']' !in d && i < |"/*[" + d + "]" + rest| && ("/*[" + d + "]" + rest)[i] == ']'
    requires forall j | 0 <= j < i :: ("/*[" + d + "]" + rest)[j] != ']'
    ensures i == 3 + |d|
  {
    var s := "/*[" + d + "]" + rest;
    assert s[3 + |d|] == ']';
    assert forall j | 0 <= j < |d| :: s[3 + j] == d[j];
  }

  lemma DecimalOnce(m: nat, n: nat)
    ensures ']' !in Decimal(m) && (Decimal(m) == Decimal(n) ==> m == n)
  {
    DecimalDigits(m);
    if Decimal(m) == Decimal(n) {
      ReadsBack(m, "");
      ReadsBack(n, "");
      assert Decimal(m) + "" == Decimal(m) && Decimal(n) + "" == Decimal(n);
    }
  }

  /** Different places have different xpaths. */
  lemma {:induction false} XpathUnique(p: seq<nat>, q: seq<nat>)
    requires XpathOf(p) == XpathOf(q)
    ensures p == q
    decreases |p|
  {
    hide Decimal;
    if p != [] && q != [] {
      var a, b, u, v := Decimal(p[0]), Decimal(q[0]), XpathOf(p[1..]), XpathOf(q[1..]);
      var s, i := XpathOf(p), 3 + |Decimal(p[0])|;
      DecimalOnce(p[0], q[0]);
      DecimalOnce(q[0], p[0]);
      assert s == "/*[" + a + "]" + u == "/*[" + b + "]" + v;
      assert s[i] == ']' && forall j | 0 <= j < i :: s[j] != ']' by {
        assert forall j | 0 <= j < |a| :: s[3 + j] == a[j];
      }
      FirstBracket(b, v, i);
      assert a == s[3..i] == b && u == s[i + 1..] == v;
      XpathUnique(p[1..], q[1..]);
      assert p == [p[0]] + p[1..] && q == [q[0]] + q[1..];
    }
  }

  // ---------------------------------------------------------------- ground documents

  /** No element is a variable or a range. */
  ghost predicate NoVariables(x: Xml)
    decreases x
  {
    x.Element? ==>
      && x.name !in {"mws:qvar", "m:mws:qvar", "mws:range", "m:mws:range"}
      && forall k | 0 <= k < |x.kids| :: NoVariables(x.kids[k])
  }

  lemma {:induction false} GroundTree(x: Xml, t: Tok, xpath: string, head: bool)
    requires IsTree(t, x) && NoVariables(x)
    ensures Ground(Flat(ExprOf(t, xpath), head))
    decreases t, 0
  {
    hide Elements, NoVariables, Ground, FlatAll;
    var e := ExprOf(t, xpath);
    RootGround(x, t, xpath, head);
    GroundTrees(x, t.kids, 0, xpath, e.tag == "apply");
    GroundSum([Item(e, head)], FlatAll(e.kids, e.tag == "apply"));
  }

  lemma RootGround(x: Xml, t: Tok, xpath: string, head: bool)
    requires IsTree(t, x) && NoVariables(x)
    ensures Ground([Item(ExprOf(t, xpath), head)])
  {
    hide Elements, Visible, TextIn, IsAttrMap, ExprsOf;
    assert "m:" + "mws:qvar" == "m:mws:qvar" && "m:" + "mws:range" == "m:mws:range";
    assert t.tag != "mws:qvar" && t.tag != "mws:range";
  }

  lemma GroundSum(a: seq<Item>, b: seq<Item>)
    requires Ground(a) && Ground(b)
    ensures Ground(a + b)
  {
    hide IsConstant;
  }

  lemma {:induction false} GroundTrees(x: Xml, ts: seq<Tok>, k: nat, xpath: string, head: bool)
    requires x.Element? && NoVariables(x) && k + |ts| == |Elements(x.kids)|
    requires forall i | 0 <= i < |ts| :: IsTree(ts[i], Elements(x.kids)[k + i])
    ensures Ground(FlatAll(ExprsOf(ts, xpath, k + 1), head))
    decreases ts, 1
  {
    hide Flat, Step, IsTree, Ground;
    if ts == [] {
      NothingGround();
    } else {
      var es, y := ExprsOf(ts, xpath, k + 1), Elements(x.kids)[k];
      assert IsTree(ts[0], Elements(x.kids)[k + 0]);
      assert y in x.kids;
      GroundTree(y, ts[0], xpath + Step(k + 1), head);
      forall i | 0 <= i < |ts| - 1
        ensures IsTree(ts[1..][i], Elements(x.kids)[k + 1 + i])
      {
        assert IsTree(ts[i + 1], Elements(x.kids)[k + (i + 1)]);
      }
      GroundTrees(x, ts[1..], k + 1, xpath, false);
      GroundSum(Flat(es[0], head), FlatAll(es[1..], false));
    }
  }

  lemma NothingGround()
    ensures Ground([])
  {
  }

  // ---------------------------------------------------------------- the harvest of a document

  /** The expressions handed on, as the index builder gets them. */
  function HarvestOf(expressions: seq<Expression>): (r: seq<Harvested>)
    ensures |r| == |expressions|
  {
    seq(|expressions|, i requires 0 <= i < |expressions| =>
          Harvested(Item(ExprOf(expressions[i].tree, ROOT_XPATH), false), expressions[i].uri, expressions[i].crawlId))
  }

  ghost function Asked(root: Xml): seq<Slot> {
    if root.Element? && root.name == "mws:harvest" then Slots(root.kids, |root.kids|) else []
  }

  /** The document entered for an element of an expr: its url and crawl id, and subexpressions whose xpaths name
      their places in the element. */
  ghost predicate IsDocOf(cfg: Config, root: Xml, s: Slot, d: Doc)
    requires root.Element? && s.c < |root.kids| && IsExpr(root.kids[s.c])
  {
    && IsAttr(root.kids[s.c].attrs, "url", "", d.xmlId)
    && (exists id :: HasDataId(root.kids[s.c], id) && IsCrawlId(cfg, root.kids, s.c, id, d.crawlId))
    && (forall it | it in d.Items() :: NamesPlace(s.x, it.e, "/*[1]"))
    && StandsFor(d.math.e, s.x) && !d.math.head
  }

  /** One document for each element directly in an expr child of the harvest, in order. */
  ghost predicate DocsOfDocument(cfg: Config, root: Xml, docs: seq<Doc>)
  {
    && |docs| == |Asked(root)|
    && forall k | 0 <= k < |docs| :: IsDocOf(cfg, root, Asked(root)[k], docs[k])
  }

  lemma DocIs(cfg: Config, root: Xml, s: Slot, e: Expression, d: Doc)
    requires root.Element? && s.c < |root.kids| && IsExpr(root.kids[s.c])
    requires IsExpressionOf(cfg, root.kids, s, e)
    requires d.math == Item(ExprOf(e.tree, ROOT_XPATH), false) && d.xmlId == e.uri && d.crawlId == e.crawlId
    ensures IsDocOf(cfg, root, s, d)
  {
    hide IsTree, NamesPlace, IsCrawlId, IsAttr, Flat, ExprOf, StandsFor;
    TreeStandsFor(e.tree, s.x, ROOT_XPATH);
    forall it | it in d.Items()
      ensures NamesPlace(s.x, it.e, ROOT_XPATH)
    {
      PlacesNamed(s.x, e.tree, ROOT_XPATH, false, it);
    }
  }

  lemma DocsAre(cfg: Config, root: Xml, out: Output, docs: seq<Doc>, renameCi: bool)
    requires Answers(cfg, root, out) && DocsOf(docs, HarvestOf(out.expressions), renameCi)
    ensures DocsOfDocument(cfg, root, docs)
  {
    hide IsExpressionOf, IsDocOf, Slots, ExprOf, ByOccurrence, DescribesData, CountsBefore;
    forall k | 0 <= k < |docs|
      ensures root.Element? && |docs| == |Asked(root)| && IsDocOf(cfg, root, Asked(root)[k], docs[k])
    {
      DocIs(cfg, root, Asked(root)[k], out.expressions[k], docs[k]);
    }
  }

  /** Elements that an expr contains directly. */
  ghost predicate NoVariablesAsked(root: Xml)
  {
    forall k | 0 <= k < |Asked(root)| :: NoVariables(Asked(root)[k].x)
  }

  lemma HarvestGround(cfg: Config, root: Xml, out: Output)
    requires Answers(cfg, root, out) && NoVariablesAsked(root)
    ensures var harvest := HarvestOf(out.expressions);
            forall i | 0 <= i < |harvest| :: Ground(Flat(harvest[i].math.e, harvest[i].math.head))
  {
    hide Slots, ExprOf, DescribesData, CountsBefore, IsTree, NoVariables, Flat, Ground, IsCrawlId, IsAttr;
    var harvest := HarvestOf(out.expressions);
    forall i | 0 <= i < |harvest|
      ensures Ground(Flat(harvest[i].math.e, harvest[i].math.head))
    {
      assert IsExpressionOf(cfg, root.kids, Asked(root)[i], out.expressions[i]);
      GroundTree(Asked(root)[i].x, out.expressions[i].tree, ROOT_XPATH, false);
    }
  }

  /** Reads a harvest document and enters its expressions: what the handler answers queries from is the
      document's elements, with their urls, the ids of their data and their places. */
  method HarvestDocument(cfg: Config, root: Xml, renameCi: bool) returns (handler: HarvestQueryHandler)
    requires NoVariablesAsked(root)
    ensures fresh(handler) && handler.Valid() && handler.indexBuilder.renameCi == renameCi
    ensures DocsOfDocument(cfg, root, handler.docs)
    ensures forall k | 0 <= k < |handler.docs| ::
              handler.docs[k].renameCi == renameCi && ByOccurrence(handler.docs[k])
  {
    hide Answers, DocsOfDocument, NoVariablesAsked, ByOccurrence, Ground, Flat, ExprOf, FormulaSearch.AllPlain,
         Formulae.PlainTags;
    var out := HarvestParsers.LoadHarvest(cfg, root);
    HarvestGround(cfg, root, out);
    handler := new HarvestQueryHandler(HarvestOf(out.expressions), renameCi);
    DocsAre(cfg, root, out, handler.docs, renameCi);
  }
}
