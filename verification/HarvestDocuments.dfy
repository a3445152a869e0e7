/** What a harvest document asks for, stated over its elements. */
module HarvestDocuments {
  import opened Harvests
  import opened Schemas
  import opened Wrappers

  // ---------------------------------------------------------------- attributes

  /** v is the value of the last attribute with the name, or the default if there is none. */
  ghost predicate IsAttr(attrs: Attrs, key: string, default: string, v: string)
  {
    || (exists i :: && 0 <= i < |attrs| && attrs[i] == (key, v)
                    && forall j | i < j < |attrs| :: attrs[j].0 != key)
    || (v == default && forall i | 0 <= i < |attrs| :: attrs[i].0 != key)
  }

  lemma {:induction false} AttrValueIs(attrs: Attrs, key: string, default: string)
    ensures IsAttr(attrs, key, default, AttrValue(attrs, key, default))
    decreases |attrs|
  {
    if attrs != [] {
      var n := |attrs| - 1;
      var v := AttrValue(attrs, key, default);
      if attrs[n].0 == key {
        assert attrs[n] == (key, v);
      } else {
        AttrValueIs(Init(attrs), key, default);
        if i :| 0 <= i < n && Init(attrs)[i] == (key, v) && forall j | i < j < n :: Init(attrs)[j].0 != key {
          assert attrs[i] == (key, v);
          assert forall j | i < j < |attrs| :: attrs[j].0 != key by {
            assert forall j | i < j < n :: attrs[j] == Init(attrs)[j];
          }
        } else {
          assert forall j | 0 <= j < n :: attrs[j] == Init(attrs)[j];
        }
      }
    }
  }

  /** The first attribute with the name has the value v. */
  ghost predicate FirstAttr(attrs: Attrs, key: string, v: string)
  {
    exists i :: 0 <= i < |attrs| && attrs[i] == (key, v) && forall j | 0 <= j < i :: attrs[j].0 != key
  }

  ghost predicate IsAttrMap(attrs: Attrs, m: map<string, string>)
  {
    forall key, v :: key in m && m[key] == v <==> FirstAttr(attrs, key, v)
  }

  lemma FirstAttrSnoc(attrs: Attrs, a: (string, string), key: string, v: string)
    ensures FirstAttr(attrs + [a], key, v)
       <==> FirstAttr(attrs, key, v) || (a == (key, v) && forall j | 0 <= j < |attrs| :: attrs[j].0 != key)
  {
    var longer := attrs + [a];
    assert forall j | 0 <= j < |attrs| :: longer[j] == attrs[j];
    assert longer[|attrs|] == a;
    if FirstAttr(attrs, key, v) {
      var i :| 0 <= i < |attrs| && attrs[i] == (key, v) && forall j | 0 <= j < i :: attrs[j].0 != key;
      assert longer[i] == (key, v);
    }
    if FirstAttr(longer, key, v) {
      var i :| 0 <= i < |longer| && longer[i] == (key, v) && forall j | 0 <= j < i :: longer[j].0 != key;
      if i < |attrs| {
        assert attrs[i] == (key, v);
      }
    }
  }

  lemma SomeFirst(attrs: Attrs, key: string)
    ensures (exists v :: FirstAttr(attrs, key, v)) <==> exists j :: 0 <= j < |attrs| && attrs[j].0 == key
    decreases |attrs|
  {
    if attrs != [] {
      SomeFirst(Init(attrs), key);
      assert attrs == Init(attrs) + [Last(attrs)];
      forall v
        ensures FirstAttr(attrs, key, v)
           <==> || FirstAttr(Init(attrs), key, v)
                || (Last(attrs) == (key, v) && forall j | 0 <= j < |attrs| - 1 :: Init(attrs)[j].0 != key)
      {
        FirstAttrSnoc(Init(attrs), Last(attrs), key, v);
      }
      if j :| 0 <= j < |attrs| && attrs[j].0 == key {
        if j < |attrs| - 1 {
          assert Init(attrs)[j].0 == key;
          var v :| FirstAttr(Init(attrs), key, v);
          assert FirstAttr(attrs, key, v);
        } else if !exists v :: FirstAttr(Init(attrs), key, v) {
          assert FirstAttr(attrs, key, Last(attrs).1);
        }
      }
    }
  }

  lemma {:induction false} AttrMapIs(attrs: Attrs)
    ensures IsAttrMap(attrs, AttrMap(attrs))
    decreases |attrs|
  {
    if attrs != [] {
      var before, a := Init(attrs), Last(attrs);
      AttrMapIs(before);
      assert attrs == before + [a];
      forall key, v
        ensures key in AttrMap(attrs) && AttrMap(attrs)[key] == v <==> FirstAttr(attrs, key, v)
      {
        FirstAttrSnoc(before, a, key, v);
        SomeFirst(before, key);
        assert key in AttrMap(before) ==> FirstAttr(before, key, AttrMap(before)[key]);
      }
    }
  }

  // ---------------------------------------------------------------- token trees

  /** The elements among xs, in order. */
  ghost function Elements(xs: seq<Xml>): (r: seq<Xml>)
    ensures forall k | 0 <= k < |r| :: r[k].Element? && r[k] in xs
    decreases |xs|
  {
    if xs == [] then [] else Elements(Init(xs)) + if Last(xs).Element? then [Last(xs)] else []
  }

  /** The characters directly among xs, in order. */
  ghost function TextIn(xs: seq<Xml>): string
    decreases |xs|
  {
    if xs == [] then "" else TextIn(Init(xs)) + if Last(xs).Chars? then Last(xs).chars else ""
  }

  ghost function Visible(s: string): string
    decreases |s|
  {
    if s == "" then "" else Visible(s[..|s| - 1]) + if IsSpace(s[|s| - 1]) then "" else [s[|s| - 1]]
  }

  /** t is the token tree of the element x: its name without the prefix, the visible characters directly in it,
      its attributes, and the trees of the elements directly in it. */
  ghost predicate IsTree(t: Tok, x: Xml)
    decreases x
  {
    && x.Element? && ("m:" + t.tag == x.name || (t.tag == x.name && !("m:" <= x.name)))
    && t.text == Visible(TextIn(x.kids)) && IsAttrMap(x.attrs, t.attrs)
    && |t.kids| == |Elements(x.kids)|
    && forall k | 0 <= k < |t.kids| :: IsTree(t.kids[k], Elements(x.kids)[k])
  }

  lemma {:induction false} VisibleConcat(s: string, t: string)
    ensures Visible(s + t) == Visible(s) + Visible(t)
    decreases |t|
  {
    if t == "" {
      assert s + t == s;
    } else {
      var before := t[..|t| - 1];
      assert (s + t)[..|s + t| - 1] == s + before;
      VisibleConcat(s, before);
    }
  }

  lemma {:induction false} NoSpacesIsVisible(s: string)
    ensures NoSpaces(s) == Visible(s)
    decreases |s|
  {
    hide Visible, NoSpaces;
    if s == "" {
      NothingVisible();
    } else {
      NoSpacesIsVisible(s[1..]);
      VisibleConcat([s[0]], s[1..]);
      assert [s[0]] + s[1..] == s;
      OneVisible(s[0]);
      NoSpacesFirst(s);
    }
  }

  lemma NothingVisible()
    ensures NoSpaces("") == "" && Visible("") == ""
  {
  }

  lemma OneVisible(c: char)
    ensures Visible([c]) == if IsSpace(c) then "" else [c]
  {
    assert [c][..0] == "" && [c][0] == c;
  }

  lemma NoSpacesFirst(s: string)
    requires s != ""
    ensures NoSpaces(s) == (if IsSpace(s[0]) then "" else [s[0]]) + NoSpaces(s[1..])
  {
  }

  lemma {:induction false} TextOfConcat(xs: seq<Xml>, ys: seq<Xml>)
    ensures TextOf(xs + ys) == TextOf(xs) + TextOf(ys)
    decreases |xs|
  {
    hide NoSpaces;
    if xs == [] {
      assert xs + ys == ys;
    } else {
      assert (xs + ys)[1..] == xs[1..] + ys;
      TextOfConcat(xs[1..], ys);
    }
  }

  lemma {:induction false} TextIsVisible(xs: seq<Xml>)
    ensures TextOf(xs) == Visible(TextIn(xs))
    decreases |xs|
  {
    hide NoSpaces;
    if xs != [] {
      var x := Last(xs);
      TextIsVisible(Init(xs));
      assert xs == Init(xs) + [x] && [x][1..] == [];
      TextOfConcat(Init(xs), [x]);
      VisibleConcat(TextIn(Init(xs)), if x.Chars? then x.chars else "");
      if x.Chars? {
        NoSpacesIsVisible(x.chars);
      }
    }
  }

  lemma {:induction false} TreesOfConcat(xs: seq<Xml>, ys: seq<Xml>)
    ensures TreesOf(xs + ys) == TreesOf(xs) + TreesOf(ys)
    decreases |xs|
  {
    hide TreesOf;
    if xs == [] {
      NoTrees();
      assert xs + ys == ys && [] + TreesOf(ys) == TreesOf(ys);
    } else {
      assert (xs + ys)[1..] == xs[1..] + ys;
      TreesOfConcat(xs[1..], ys);
      TreesOfFirst(xs);
      TreesOfFirst(xs + ys);
      Regroup(OneTree(xs[0]), TreesOf(xs[1..]), TreesOf(ys));
    }
  }

  ghost function OneTree(x: Xml): seq<Tok> {
    if x.Element? then [TreeOf(x)] else []
  }

  lemma NoTrees()
    ensures TreesOf([]) == []
  {
  }

  lemma TreesOfFirst(xs: seq<Xml>)
    requires xs != []
    ensures TreesOf(xs) == OneTree(xs[0]) + TreesOf(xs[1..])
  {
    hide TreeOf;
  }

  lemma Regroup<T>(a: seq<T>, b: seq<T>, c: seq<T>)
    ensures (a + b) + c == a + (b + c)
  {
  }

  lemma TreesOfLast(xs: seq<Xml>)
    requires xs != []
    ensures TreesOf(xs) == TreesOf(Init(xs)) + if Last(xs).Element? then [TreeOf(Last(xs))] else []
  {
    hide TreesOf, TreeOf;
    assert xs == Init(xs) + [Last(xs)] && [Last(xs)][1..] == [];
    TreesOfConcat(Init(xs), [Last(xs)]);
    TreesOfFirst([Last(xs)]);
    NoTrees();
    assert OneTree(Last(xs)) + [] == OneTree(Last(xs));
  }

  /** The trees the parser builds are those of the elements, in order. */
  lemma {:induction false} TreesInOrder(xs: seq<Xml>)
    ensures |TreesOf(xs)| == |Elements(xs)|
    ensures forall k | 0 <= k < |Elements(xs)| :: TreesOf(xs)[k] == TreeOf(Elements(xs)[k])
    decreases |xs|
  {
    hide TreeOf;
    if xs != [] {
      TreesOfLast(xs);
      TreesInOrder(Init(xs));
    }
  }

  lemma {:induction false} TreeIs(x: Xml)
    requires x.Element?
    ensures IsTree(TreeOf(x), x)
    decreases x
  {
    hide AttrMap, TextOf, TreesOf, Visible, TextIn, IsAttrMap;
    AttrMapIs(x.attrs);
    TextIsVisible(x.kids);
    TreesInOrder(x.kids);
    forall k | 0 <= k < |Elements(x.kids)|
      ensures IsTree(TreeOf(x).kids[k], Elements(x.kids)[k])
    {
      var y := Elements(x.kids)[k];
      assert y in x.kids;
      TreeIs(y);
    }
  }

  // ---------------------------------------------------------------- the children of the harvest

  ghost predicate IsExpr(x: Xml)
  {
    x.Element? && x.name == "mws:expr"
  }

  ghost predicate HasDataId(x: Xml, id: string)
    requires x.Element?
  {
    IsAttr(x.attrs, "mws:data_id", "", id)
  }

  /** A data element with an id. */
  ghost predicate IsData(x: Xml): (b: bool)
    ensures b ==> x.Element?
  {
    x.Element? && x.name == "mws:data" && !HasDataId(x, "")
  }

  /** The number of data elements before child n. */
  ghost function Rank(ys: seq<Xml>, n: nat): nat
    requires n <= |ys|
  {
    if n == 0 then 0 else Rank(ys, n - 1) + if IsData(ys[n - 1]) then 1 else 0
  }

  /** Child c is a data element with the given id, and the processor gave it an id of its own. */
  ghost predicate Named(cfg: Config, ys: seq<Xml>, c: nat, id: string)
    requires c < |ys|
  {
    IsData(ys[c]) && HasDataId(ys[c], id) && cfg.answers(Rank(ys, c)) != 0
  }

  /** v is the id that the processor gave last, before child n, to a data element with the given id; 0 if it
      gave none. */
  ghost predicate IsCrawlId(cfg: Config, ys: seq<Xml>, n: nat, id: string, v: nat)
    requires n <= |ys|
  {
    || (cfg.shouldProcessData && exists c :: && 0 <= c < n && Named(cfg, ys, c, id) && v == cfg.answers(Rank(ys, c))
                                             && forall b | c < b < n :: !Named(cfg, ys, b, id))
    || (v == 0 && (cfg.shouldProcessData ==> forall c | 0 <= c < n :: !Named(cfg, ys, c, id)))
  }

  /** An element directly in child c of the harvest. */
  datatype Slot = Slot(c: nat, x: Xml)

  /** The elements directly in the expr children before child n, in document order. */
  ghost function Slots(ys: seq<Xml>, n: nat): (r: seq<Slot>)
    requires n <= |ys|
    ensures forall k | 0 <= k < |r| :: r[k].c < n && IsExpr(ys[r[k].c]) && r[k].x.Element?
  {
    if n == 0 then []
    else
      var xs := if IsExpr(ys[n - 1]) then Elements(ys[n - 1].kids) else [];
      Slots(ys, n - 1) + seq(|xs|, k requires 0 <= k < |xs| => Slot(n - 1, xs[k]))
  }

  /** The expression has the element's tree, the url of its expr, and the crawl id of the last data element
      before it with the expr's id. */
  ghost predicate IsExpressionOf(cfg: Config, ys: seq<Xml>, s: Slot, e: Expression)
    requires s.c < |ys| && IsExpr(ys[s.c])
  {
    && IsTree(e.tree, s.x) && IsAttr(ys[s.c].attrs, "url", "", e.uri)
    && exists id :: HasDataId(ys[s.c], id) && IsCrawlId(cfg, ys, s.c, id, e.crawlId)
  }

  ghost function CountsBefore(cfg: Config, k: nat): int {
    if k == 0 then 0 else CountsBefore(cfg, k - 1) + if cfg.counts(k - 1) == -1 then 0 else cfg.counts(k - 1)
  }

  /** What has been handed on of the children before child n. */
  ghost predicate Describes(cfg: Config, ys: seq<Xml>, n: nat, out: Output)
    requires n <= |ys|
  {
    && |out.expressions| == |Slots(ys, n)|
    && (forall k | 0 <= k < |out.expressions| :: IsExpressionOf(cfg, ys, Slots(ys, n)[k], out.expressions[k]))
    && out.parsed == CountsBefore(cfg, |out.expressions|)
    && DescribesData(cfg, ys, n, out)
  }

  /** Every data element is handed on with its content, in document order, and its id is kept. */
  ghost predicate DescribesData(cfg: Config, ys: seq<Xml>, n: nat, out: Output)
    requires n <= |ys|
  {
    && |out.data| == (if cfg.shouldProcessData then Rank(ys, n) else 0)
    && (cfg.shouldProcessData ==> forall c | 0 <= c < n && IsData(ys[c]) ::
          Rank(ys, c) < |out.data| && out.data[Rank(ys, c)] == EventsAll(ys[c].kids))
    && forall id :: IsCrawlId(cfg, ys, n, id, if id in out.crawlIds then out.crawlIds[id] else 0)
                    && (id in out.crawlIds ==> out.crawlIds[id] != 0)
  }

  // ---------------------------------------------------------------- one child more

  lemma AttrUnique(attrs: Attrs, key: string, default: string, v: string, w: string)
    requires IsAttr(attrs, key, default, v) && IsAttr(attrs, key, default, w)
    ensures v == w
  {
  }

  lemma DataIdIs(x: Xml, id: string)
    requires x.Element?
    ensures HasDataId(x, id) <==> id == AttrValue(x.attrs, "mws:data_id", "")
  {
    hide IsAttr;
    var v := AttrValue(x.attrs, "mws:data_id", "");
    AttrValueIs(x.attrs, "mws:data_id", "");
    if HasDataId(x, id) {
      AttrUnique(x.attrs, "mws:data_id", "", v, id);
    }
  }

  lemma CrawlIdIs(cfg: Config, ys: seq<Xml>, n: nat, out: Output, id: string)
    requires n <= |ys| && DescribesData(cfg, ys, n, out)
    ensures IsCrawlId(cfg, ys, n, id, CrawlIdFor(cfg, out, Resolved(cfg, out, id)))
  {
    hide IsCrawlId;
    IdKept(cfg, ys, n, out, id);
    if !cfg.shouldProcessData {
      NoCrawlId(cfg, ys, n, id);
    } else if id !in out.crawlIds && id != "" {
      NothingWithoutId(cfg, ys, n, out);
    }
  }

  lemma IdKept(cfg: Config, ys: seq<Xml>, n: nat, out: Output, id: string)
    requires n <= |ys| && DescribesData(cfg, ys, n, out)
    ensures IsCrawlId(cfg, ys, n, id, if id in out.crawlIds then out.crawlIds[id] else 0)
    ensures id in out.crawlIds ==> out.crawlIds[id] != 0
  {
    hide IsCrawlId;
  }

  lemma NoCrawlId(cfg: Config, ys: seq<Xml>, n: nat, id: string)
    requires n <= |ys| && !cfg.shouldProcessData
    ensures IsCrawlId(cfg, ys, n, id, 0)
  {
  }

  lemma NothingWithoutId(cfg: Config, ys: seq<Xml>, n: nat, out: Output)
    requires n <= |ys| && DescribesData(cfg, ys, n, out)
    ensures "" !in out.crawlIds
  {
    hide IsAttr, Rank;
    IdKept(cfg, ys, n, out, "");
    assert forall c | 0 <= c < n :: !Named(cfg, ys, c, "");
  }

  lemma {:induction false} ExpressionsAdded(cfg: Config, out: Output, trees: seq<Tok>, uri: string, id: string)
    ensures var out', n := AddExpressions(cfg, out, trees, uri, id), |out.expressions|;
            && out'.data == out.data && out'.crawlIds == out.crawlIds
            && |out'.expressions| == n + |trees|
            && (forall k | 0 <= k < n :: out'.expressions[k] == out.expressions[k])
            && (forall k | 0 <= k < |trees| ::
                  out'.expressions[n + k] == Expression(trees[k], uri, CrawlIdFor(cfg, out, id)))
            && (out.parsed == CountsBefore(cfg, n) ==> out'.parsed == CountsBefore(cfg, n + |trees|))
    decreases |trees|
  {
    if trees != [] {
      ExpressionsAdded(cfg, out, Init(trees), uri, id);
    }
  }

  lemma {:induction false} SlotsStep(ys: seq<Xml>, n: nat)
    requires n < |ys|
    ensures |Slots(ys, n)| <= |Slots(ys, n + 1)|
    ensures forall k | 0 <= k < |Slots(ys, n)| :: Slots(ys, n + 1)[k] == Slots(ys, n)[k]
    ensures !IsExpr(ys[n]) ==> Slots(ys, n + 1) == Slots(ys, n)
    ensures IsExpr(ys[n]) ==>
              var xs, m := Elements(ys[n].kids), |Slots(ys, n)|;
              |Slots(ys, n + 1)| == m + |xs| && forall k | 0 <= k < |xs| :: Slots(ys, n + 1)[m + k] == Slot(n, xs[k])
  {
    hide Elements, IsExpr;
  }

  /** A child that is no data element changes nothing about data. */
  lemma NoMoreData(cfg: Config, ys: seq<Xml>, n: nat, out: Output)
    requires n < |ys| && !IsData(ys[n]) && DescribesData(cfg, ys, n, out)
    ensures DescribesData(cfg, ys, n + 1, out)
  {
    hide IsCrawlId, IsData, EventsAll;
    forall id
      ensures IsCrawlId(cfg, ys, n + 1, id, if id in out.crawlIds then out.crawlIds[id] else 0)
              && (id in out.crawlIds ==> out.crawlIds[id] != 0)
    {
      IdKept(cfg, ys, n, out, id);
      SameCrawlId(cfg, ys, n, id, if id in out.crawlIds then out.crawlIds[id] else 0);
    }
    assert Rank(ys, n + 1) == Rank(ys, n);
    assert forall c | 0 <= c < n + 1 && IsData(ys[c]) :: c < n;
  }

  lemma SameCrawlId(cfg: Config, ys: seq<Xml>, n: nat, id: string, v: nat)
    requires n < |ys| && !Named(cfg, ys, n, id) && IsCrawlId(cfg, ys, n, id, v)
    ensures IsCrawlId(cfg, ys, n + 1, id, v)
  {
    hide Named, Rank;
  }

  lemma ExprDescribed(cfg: Config, ys: seq<Xml>, n: nat, out: Output)
    requires n < |ys| && IsExpr(ys[n]) && Describes(cfg, ys, n, out)
    ensures Describes(cfg, ys, n + 1, Contribute(cfg, out, ys[n]))
  {
    hide DescribesData, IsTree, AttrValue, IsAttr, Elements, TreesOf, TreeOf, AddExpressions, CrawlIdFor, Resolved,
         IsCrawlId, Slots, CountsBefore;
    var x, out' := ys[n], Contribute(cfg, out, ys[n]);
    var id, url := AttrValue(x.attrs, "mws:data_id", ""), AttrValue(x.attrs, "url", "");
    ExpressionsAdded(cfg, out, TreesOf(x.kids), url, Resolved(cfg, out, id));
    TreesInOrder(x.kids);
    SlotsStep(ys, n);
    NoMoreData(cfg, ys, n, out);
    SameData(cfg, ys, n + 1, out, out');
    AttrValueIs(x.attrs, "url", "");
    DataIdIs(x, id);
    CrawlIdIs(cfg, ys, n, out, id);
    var m := |out.expressions|;
    forall k | 0 <= k < |out'.expressions|
      ensures IsExpressionOf(cfg, ys, Slots(ys, n + 1)[k], out'.expressions[k])
    {
      if k < m {
        assert out'.expressions[k] == out.expressions[k];
      } else {
        assert Slots(ys, n + 1)[m + (k - m)] == Slot(n, Elements(x.kids)[k - m]);
        assert out'.expressions[m + (k - m)].tree == TreesOf(x.kids)[k - m];
        TreeIs(Elements(x.kids)[k - m]);
      }
    }
  }

  lemma SameData(cfg: Config, ys: seq<Xml>, n: nat, out: Output, out': Output)
    requires n <= |ys| && DescribesData(cfg, ys, n, out) && out'.data == out.data && out'.crawlIds == out.crawlIds
    ensures DescribesData(cfg, ys, n, out')
  {
    hide IsCrawlId, IsData, EventsAll, Rank;
  }

  lemma DataDescribed(cfg: Config, ys: seq<Xml>, n: nat, out: Output)
    requires n < |ys| && IsData(ys[n]) && DescribesData(cfg, ys, n, out)
    ensures DescribesData(cfg, ys, n + 1, Contribute(cfg, out, ys[n]))
  {
    hide IsCrawlId, IsData, EventsAll, AttrValue, HasDataId, DescribesData;
    var x := ys[n];
    var own, out' := AttrValue(x.attrs, "mws:data_id", ""), Contribute(cfg, out, x);
    DataNode(x);
    DataIdIs(x, own);
    if cfg.shouldProcessData {
      DataAdded(cfg, ys, n, out, own);
    } else {
      NoData(cfg, ys, n, out);
    }
  }

  lemma DataNode(x: Xml)
    requires IsData(x)
    ensures x.Element? && x.name == "mws:data" && !IsExpr(x) && AttrValue(x.attrs, "mws:data_id", "") != ""
  {
    hide AttrValue, IsAttr;
    DataIdIs(x, "");
  }

  lemma NoData(cfg: Config, ys: seq<Xml>, n: nat, out: Output)
    requires n < |ys| && !cfg.shouldProcessData && DescribesData(cfg, ys, n, out)
    ensures DescribesData(cfg, ys, n + 1, out)
  {
    hide EventsAll, IsData, Rank, Named;
  }

  lemma DataAdded(cfg: Config, ys: seq<Xml>, n: nat, out: Output, own: string)
    requires n < |ys| && IsData(ys[n]) && HasDataId(ys[n], own) && cfg.shouldProcessData
    requires own == AttrValue(ys[n].attrs, "mws:data_id", "") && DescribesData(cfg, ys, n, out)
    ensures DescribesData(cfg, ys, n + 1, AddData(cfg, out, own, EventsAll(ys[n].kids)))
  {
    hide IsCrawlId, IsData, EventsAll, AttrValue, HasDataId, Named;
    var out' := AddData(cfg, out, own, EventsAll(ys[n].kids));
    RankGrows(ys, n);
    forall c | 0 <= c < n + 1 && IsData(ys[c])
      ensures Rank(ys, c) < |out'.data| && out'.data[Rank(ys, c)] == EventsAll(ys[c].kids)
    {
    }
    forall id
      ensures IsCrawlId(cfg, ys, n + 1, id, if id in out'.crawlIds then out'.crawlIds[id] else 0)
              && (id in out'.crawlIds ==> out'.crawlIds[id] != 0)
    {
      IdKept(cfg, ys, n, out, id);
      NamedIff(cfg, ys, n, own, id);
      if id == own && cfg.answers(Rank(ys, n)) != 0 {
        NewCrawlId(cfg, ys, n, id);
      } else {
        SameCrawlId(cfg, ys, n, id, if id in out.crawlIds then out.crawlIds[id] else 0);
      }
    }
  }

  lemma {:induction false} RankGrows(ys: seq<Xml>, n: nat)
    requires n <= |ys|
    ensures forall c | 0 <= c < n && IsData(ys[c]) :: Rank(ys, c) < Rank(ys, n)
    ensures forall c | 0 <= c < n :: Rank(ys, c) <= Rank(ys, n)
    decreases n
  {
    hide IsData;
    if n > 0 {
      RankGrows(ys, n - 1);
    }
  }

  lemma NamedIff(cfg: Config, ys: seq<Xml>, n: nat, own: string, id: string)
    requires n < |ys| && IsData(ys[n]) && own == AttrValue(ys[n].attrs, "mws:data_id", "")
    ensures Named(cfg, ys, n, id) <==> id == own && cfg.answers(Rank(ys, n)) != 0
  {
    hide AttrValue, HasDataId, Rank;
    DataIdIs(ys[n], id);
  }

  lemma NewCrawlId(cfg: Config, ys: seq<Xml>, n: nat, id: string)
    requires n < |ys| && cfg.shouldProcessData && Named(cfg, ys, n, id)
    ensures IsCrawlId(cfg, ys, n + 1, id, cfg.answers(Rank(ys, n)))
  {
    hide Named, Rank;
  }

  lemma OtherDescribed(cfg: Config, ys: seq<Xml>, n: nat, out: Output)
    requires n < |ys| && !IsData(ys[n]) && !IsExpr(ys[n])
    ensures Contribute(cfg, out, ys[n]) == out
  {
    hide AttrValue, IsAttr;
    if ys[n].Element? {
      DataIdIs(ys[n], "");
    }
  }

  lemma ChildDescribed(cfg: Config, ys: seq<Xml>, n: nat, out: Output)
    requires n < |ys| && Describes(cfg, ys, n, out)
    ensures Describes(cfg, ys, n + 1, Contribute(cfg, out, ys[n]))
  {
    hide DescribesData, Contribute, IsExpressionOf, Slots, CountsBefore, IsData;
    if IsExpr(ys[n]) {
      ExprDescribed(cfg, ys, n, out);
    } else {
      SlotsStep(ys, n);
      if IsData(ys[n]) {
        DataDescribed(cfg, ys, n, out);
        DataKeeps(cfg, ys[n], out);
      } else {
        NoMoreData(cfg, ys, n, out);
        OtherDescribed(cfg, ys, n, out);
      }
    }
  }

  lemma DataKeeps(cfg: Config, x: Xml, out: Output)
    requires IsData(x)
    ensures var out' := Contribute(cfg, out, x); out'.expressions == out.expressions && out'.parsed == out.parsed
  {
    hide AttrValue, EventsAll, IsAttr;
  }

  lemma {:induction false} ChildrenDescribed(cfg: Config, ys: seq<Xml>, n: nat, out: Output)
    requires n <= |ys| && Describes(cfg, ys, n, out)
    ensures Describes(cfg, ys, |ys|, ContributeAll(cfg, out, ys[n..]))
    decreases |ys| - n
  {
    hide Describes, Contribute;
    if n < |ys| {
      ChildDescribed(cfg, ys, n, out);
      assert ys[n..][0] == ys[n] && ys[n..][1..] == ys[n + 1..];
      ChildrenDescribed(cfg, ys, n + 1, Contribute(cfg, out, ys[n]));
    }
  }

  /** What is handed on of a document: of a harvest, what it asks for; of any other document nothing. */
  ghost predicate Answers(cfg: Config, root: Xml, out: Output)
  {
    if root.Element? && root.name == "mws:harvest" then Describes(cfg, root.kids, |root.kids|, out)
    else out == Output([], [], map[], 0)
  }

  /** The meaning of a document is what it asks for. */
  lemma MeaningAnswers(cfg: Config, root: Xml)
    ensures Answers(cfg, root, Meaning(cfg, Output([], [], map[], 0), root))
  {
    hide Describes, Contribute;
    if root.Element? && root.name == "mws:harvest" {
      NothingDescribed(cfg, root.kids);
      ChildrenDescribed(cfg, root.kids, 0, Output([], [], map[], 0));
      assert root.kids[0..] == root.kids;
    }
  }

  lemma NothingDescribed(cfg: Config, ys: seq<Xml>)
    ensures Describes(cfg, ys, 0, Output([], [], map[], 0))
  {
  }
}
