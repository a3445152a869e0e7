/** What an index and its database hold after a run of harvests, in terms of the harvested
    expressions. */
module Libraries {
  import opened Tokens
  import opened Terms
  import opened Tries
  import opened TmpIndexes
  import opened Expressions
  import opened CiRenaming
  import opened ExpressionEncoders
  import opened AlphaEncoding
  import opened Numberings
  import opened ExpressionInstances
  import opened IndexBuilders
  import opened Wrappers
  import A = Answers

  /** A harvested expression with the data it is entered with, whether names are renamed, and the
      names that have got an alias, in the order of their aliases. */
  datatype Doc = Doc(math: Item, xmlId: string, crawlId: nat, renameCi: bool, known: seq<string>) {

    /** The subexpressions in visiting order. */
    function Items(): seq<Item> {
      Flat(math.e, math.head)
    }

    function ShapeAt(i: nat): Shape
      requires i < |Items()|
    {
      Stored(Items()[i].e, Items()[i].head, known, renameCi)
    }

    /** No token of the subexpression is too wide. */
    ghost predicate Enterable(i: nat)
      requires i < |Items()|
    {
      !SomeTooWide(Flat(Items()[i].e, Items()[i].head))
    }

    /** Subexpression i gets an entry: it fits, and none before it that fits looks the same. */
    ghost predicate GetsEntry(i: nat)
      requires i < |Items()|
    {
      Enterable(i) && forall j | 0 <= j < i && Enterable(j) :: ShapeAt(j) != ShapeAt(i)
    }

    /** An entry made for subexpression i names the expression and its document, and says where in the
        expression the subexpression stands. */
    function InfoAt(i: nat): A.FormulaInfo
      requires i < |Items()|
    {
      A.FormulaInfo(crawlId, xmlId, Items()[i].e.xpath)
    }

    function InfoList(): (r: seq<A.FormulaInfo>)
      ensures |r| == |Items()|
    {
      seq(|Items()|, i requires 0 <= i < |Items()| => InfoAt(i))
    }
  }

  // ---------------------------------------------------------------- codes of subexpressions

  /** The meanings of the items are in the dictionary, and none is too wide. */
  ghost predicate Plain(items: seq<Item>, known: seq<string>, keys: seq<string>, renameCi: bool)
  {
    forall i | 0 <= i < |items| ::
      IsConstant(items[i]) && !TooWide(items[i]) && Translated(items[i], known, renameCi) in keys
  }

  ghost function ItemTokens(items: seq<Item>, known: seq<string>, keys: seq<string>, renameCi: bool): seq<Token>
    requires Plain(items, known, keys, renameCi)
  {
    seq(|items|, i requires 0 <= i < |items| =>
          MeaningToken(Translated(items[i], known, renameCi), |items[i].e.kids|, keys))
  }

  lemma {:induction false} CodeOfFlat(e: Expr, head: bool, known: seq<string>, keys: seq<string>, renameCi: bool)
    requires Plain(Flat(e, head), known, keys, renameCi)
    ensures Codable(Stored(e, head, known, renameCi), keys)
            && Code(Stored(e, head, known, renameCi), keys) == ItemTokens(Flat(e, head), known, keys, renameCi)
    decreases e, 0
  {
    hide MeaningToken, IsConstant, Translated;
    var items, below := Flat(e, head), FlatAll(e.kids, e.tag == "apply");
    assert items == [Item(e, head)] + below;
    PlainParts([Item(e, head)], below, known, keys, renameCi);
    CodeOfFlatAll(e.kids, e.tag == "apply", known, keys, renameCi);
    FlatHead(e, head, known, keys, renameCi);
  }

  lemma FlatHead(e: Expr, head: bool, known: seq<string>, keys: seq<string>, renameCi: bool)
    requires Plain([Item(e, head)], known, keys, renameCi)
    ensures var s := Stored(e, head, known, renameCi);
            s.sym == Fixed(Translated(Item(e, head), known, renameCi)) && s.sym.meaning in keys
                && |s.kids| == |e.kids| <= ENC_TOK_MAX_ARITY
    ensures ItemTokens([Item(e, head)], known, keys, renameCi)
            == [MeaningToken(Translated(Item(e, head), known, renameCi), |e.kids|, keys)]
  {
    assert [Item(e, head)][0] == Item(e, head);
  }

  lemma PlainParts(a: seq<Item>, b: seq<Item>, known: seq<string>, keys: seq<string>, renameCi: bool)
    requires Plain(a + b, known, keys, renameCi)
    ensures Plain(a, known, keys, renameCi) && Plain(b, known, keys, renameCi)
            && ItemTokens(a + b, known, keys, renameCi)
                == ItemTokens(a, known, keys, renameCi) + ItemTokens(b, known, keys, renameCi)
  {
    hide IsConstant, MeaningToken, TooWide, Translated;
    assert forall i | 0 <= i < |a| :: (a + b)[i] == a[i];
    assert forall i | 0 <= i < |b| :: (a + b)[|a| + i] == b[i];
  }

  lemma {:induction false} CodeOfFlatAll(es: seq<Expr>, head: bool, known: seq<string>, keys: seq<string>,
                                         renameCi: bool)
    requires Plain(FlatAll(es, head), known, keys, renameCi)
    ensures AllCodable(StoredAll(es, head, known, renameCi), keys)
    ensures CodeAll(StoredAll(es, head, known, renameCi), keys) == ItemTokens(FlatAll(es, head), known, keys, renameCi)
    decreases es, 1
  {
    hide MeaningToken, IsConstant, Flat, Stored, Codable, Code, Plain;
    if es != [] {
      PlainParts(Flat(es[0], head), FlatAll(es[1..], false), known, keys, renameCi);
      CodeOfFlat(es[0], head, known, keys, renameCi);
      CodeOfFlatAll(es[1..], false, known, keys, renameCi);
      StoredHead(es, head, known, renameCi);
      var ss := StoredAll(es, head, known, renameCi);
      assert forall i | 0 < i < |ss| :: ss[i] == ss[1..][i - 1];
    }
  }

  lemma StoredHead(es: seq<Expr>, head: bool, known: seq<string>, renameCi: bool)
    requires es != []
    ensures StoredAll(es, head, known, renameCi)[0] == Stored(es[0], head, known, renameCi)
    ensures StoredAll(es, head, known, renameCi)[1..] == StoredAll(es[1..], false, known, renameCi)
  {
  }

  /** The code the builder enters is the code of the shape. */
  lemma BuilderCode(it: Item, known: seq<string>, keys: seq<string>, renameCi: bool)
    requires !SomeTooWide(Flat(it.e, it.head)) && Known(it, known, keys, renameCi)
    ensures Codable(Stored(it.e, it.head, known, renameCi), keys)
    ensures CodeOf(it, known, keys, renameCi) == Code(Stored(it.e, it.head, known, renameCi), keys)
  {
    hide Flat, NumberOf, Codable, Code, Stored, Translated;
    var items := Flat(it.e, it.head);
    forall i | 0 <= i < |items|
      ensures IsConstant(items[i]) && !TooWide(items[i]) && Translated(items[i], known, renameCi) in keys
    {
    }
    CodeOfFlat(it.e, it.head, known, keys, renameCi);
    assert CodeOf(it, known, keys, renameCi) == ItemTokens(items, known, keys, renameCi);
  }

  lemma {:induction false} CodesStay(ss: seq<Shape>, keys: seq<string>, keys': seq<string>)
    requires AllCodable(ss, keys) && keys <= keys' && NoRepeats(keys')
    ensures AllCodable(ss, keys') && CodeAll(ss, keys') == CodeAll(ss, keys)
    decreases ss
  {
    hide NumberOf, NoRepeats;
    if ss != [] {
      var x, r := CodesHead(ss, [], keys);
      CodesStay(ss[0].kids, keys, keys');
      CodesStay(ss[1..], keys, keys');
      NumberStays(keys, keys', ss[0].sym.meaning);
      AllCodableCons(ss, keys');
    }
  }

  lemma AllCodableCons(ss: seq<Shape>, keys: seq<string>)
    requires ss != [] && ss[0].sym.Fixed? && ss[0].sym.meaning in keys && |ss[0].kids| <= ENC_TOK_MAX_ARITY
    requires AllCodable(ss[0].kids, keys) && AllCodable(ss[1..], keys)
    ensures AllCodable(ss, keys)
  {
    assert forall i | 0 < i < |ss| :: ss[i] == ss[1..][i - 1];
  }

  lemma CodeStays(s: Shape, keys: seq<string>, keys': seq<string>)
    requires Codable(s, keys) && keys <= keys' && NoRepeats(keys')
    ensures Codable(s, keys') && Code(s, keys') == Code(s, keys)
  {
    hide Codable, Code, NoRepeats;
    OneCode(s, keys);
    CodesStay([s], keys, keys');
    assert [s][0] == s;
    OneCode(s, keys');
  }

  // ---------------------------------------------------------------- what the index holds

  ghost predicate DocKnown(d: Doc, keys: seq<string>)
  {
    forall i | 0 <= i < |d.Items()| && d.Enterable(i) :: Codable(d.ShapeAt(i), keys)
  }

  /** The code of each subexpression, None where it does not fit. */
  ghost function DocCodes(d: Doc, keys: seq<string>): (codes: Codes)
    requires DocKnown(d, keys)
    ensures |codes| == |d.Items()|
  {
    seq(|d.Items()|, i requires 0 <= i < |d.Items()| => if d.Enterable(i) then Some(Code(d.ShapeAt(i), keys)) else None)
  }

  ghost function EntryIn(codes: Codes, infos: seq<A.FormulaInfo>, w: seq<Token>): seq<A.FormulaInfo>
    requires |codes| == |infos|
  {
    if Some(w) in codes then [infos[First(codes, w)]] else []
  }

  ghost predicate AllKnown(docs: seq<Doc>, keys: seq<string>)
  {
    forall k | 0 <= k < |docs| :: DocKnown(docs[k], keys)
  }

  /** The entries of a code, one for each expression it occurs in, in the order of harvesting. */
  ghost function EntriesFor(docs: seq<Doc>, keys: seq<string>, w: seq<Token>): seq<A.FormulaInfo>
    requires AllKnown(docs, keys)
    decreases |docs|
  {
    if docs == [] then []
    else
      var d := Last(docs);
      EntriesFor(Init(docs), keys, w) + EntryIn(DocCodes(d, keys), d.InfoList(), w)
  }

  ghost predicate SomeCode(docs: seq<Doc>, keys: seq<string>, w: seq<Token>)
    requires AllKnown(docs, keys)
  {
    exists k :: 0 <= k < |docs| && Some(w) in DocCodes(docs[k], keys)
  }

  /** The index holds the codes of the harvested expressions and nothing else, each with its entries. */
  ghost predicate Indexed(tree: Trie, data: Data, docs: seq<Doc>, keys: seq<string>)
  {
    && NoRepeats(keys) && AllKnown(docs, keys)
    && forall w :: && (IsLeafPath(tree, w) <==> SomeCode(docs, keys, w))
                   && EntriesAt(tree, data, w) == EntriesFor(docs, keys, w)
  }

  lemma NothingIndexed()
    ensures Indexed(Inner([]), map[], [], [])
  {
    forall w
      ensures !IsLeafPath(Inner([]), w)
    {
      assert w != [] ==> Child(Inner([]), w[0]) == None;
    }
  }

  lemma DocStays(d: Doc, keys: seq<string>, keys': seq<string>)
    requires DocKnown(d, keys) && keys <= keys' && NoRepeats(keys')
    ensures DocKnown(d, keys') && DocCodes(d, keys') == DocCodes(d, keys)
  {
    hide Doc.Items, Doc.ShapeAt, Doc.Enterable, Codable, Code;
    forall i | 0 <= i < |d.Items()| && d.Enterable(i)
      ensures Codable(d.ShapeAt(i), keys') && Code(d.ShapeAt(i), keys') == Code(d.ShapeAt(i), keys)
    {
      CodeStays(d.ShapeAt(i), keys, keys');
    }
  }

  lemma {:induction false} DocsStay(docs: seq<Doc>, keys: seq<string>, keys': seq<string>, w: seq<Token>)
    requires AllKnown(docs, keys) && keys <= keys' && NoRepeats(keys')
    ensures AllKnown(docs, keys') && EntriesFor(docs, keys', w) == EntriesFor(docs, keys, w)
    ensures SomeCode(docs, keys', w) <==> SomeCode(docs, keys, w)
    decreases |docs|
  {
    hide DocKnown, DocCodes, EntryIn;
    forall k | 0 <= k < |docs|
      ensures DocKnown(docs[k], keys') && DocCodes(docs[k], keys') == DocCodes(docs[k], keys)
    {
      DocStays(docs[k], keys, keys');
    }
    if docs != [] {
      DocsStay(Init(docs), keys, keys', w);
    }
  }

  lemma BuilderCodes(d: Doc, codes: Codes, keys: seq<string>)
    requires CodesAre(codes, d.Items(), d.known, keys, d.renameCi)
    ensures DocKnown(d, keys) && DocCodes(d, keys) == codes
  {
    hide Flat, Codable, Code, Stored, Known, CodeOf, SomeTooWide;
    forall i | 0 <= i < |d.Items()| && d.Enterable(i)
      ensures Codable(d.ShapeAt(i), keys) && codes[i] == Some(Code(d.ShapeAt(i), keys))
    {
      BuilderCode(d.Items()[i], d.known, keys, d.renameCi);
    }
  }

  /** Entering one more expression, by what the builder promises of it. */
  lemma IndexedSnoc(tree: Trie, data: Data, docs: seq<Doc>, keys: seq<string>, d: Doc, tree': Trie, data': Data,
                    codes: Codes, keys': seq<string>)
    requires Indexed(tree, data, docs, keys) && keys <= keys' && NoRepeats(keys')
    requires CodesAre(codes, d.Items(), d.known, keys', d.renameCi)
    requires Entered(tree, data, tree', data', codes, Infos(d.Items(), d.xmlId, d.crawlId))
    ensures Indexed(tree', data', docs + [d], keys')
  {
    hide IsLeafPath, EntriesAt, HitsAt, EntriesFor, SomeCode, DocCodes, DocKnown, First, LeafAt, NoRepeats, CodesAre;
    var docs' := docs + [d];
    assert Init(docs') == docs && Last(docs') == d;
    BuilderCodes(d, codes, keys');
    InfosOfDoc(d);
    DocsStay(docs, keys, keys', []);
    assert AllKnown(docs', keys');
    forall w
      ensures IsLeafPath(tree', w) <==> SomeCode(docs', keys', w)
      ensures EntriesAt(tree', data', w) == EntriesFor(docs', keys', w)
    {
      DocsStay(docs, keys, keys', w);
      SomeCodeSnoc(docs, d, keys', w);
      EntriesForSnoc(docs, d, keys', w);
      assert w in CodeSet(codes) <==> Some(w) in codes;
    }
  }

  lemma InfosOfDoc(d: Doc)
    ensures Infos(d.Items(), d.xmlId, d.crawlId) == d.InfoList()
  {
    hide Doc.Items;
  }

  lemma SomeCodeSnoc(docs: seq<Doc>, d: Doc, keys: seq<string>, w: seq<Token>)
    requires AllKnown(docs, keys) && DocKnown(d, keys)
    ensures AllKnown(docs + [d], keys)
    ensures SomeCode(docs + [d], keys, w) <==> SomeCode(docs, keys, w) || Some(w) in DocCodes(d, keys)
  {
    hide DocKnown, DocCodes;
    var docs' := docs + [d];
    assert docs'[|docs|] == d;
    assert forall k | 0 <= k < |docs| :: docs'[k] == docs[k];
  }

  lemma EntriesForSnoc(docs: seq<Doc>, d: Doc, keys: seq<string>, w: seq<Token>)
    requires AllKnown(docs, keys) && DocKnown(d, keys)
    ensures AllKnown(docs + [d], keys)
    ensures EntriesFor(docs + [d], keys, w)
         == EntriesFor(docs, keys, w) + EntryIn(DocCodes(d, keys), d.InfoList(), w)
  {
    hide DocKnown, DocCodes, EntryIn;
    assert Init(docs + [d]) == docs && Last(docs + [d]) == d;
  }

  /** Names get their aliases by first occurrence in the whole expression, apart from those of elements that are
      too wide to be encoded. */
  ghost predicate ByOccurrence(d: Doc)
  {
    d.known == AddAll([], CiNames(NotWide(d.Items()), d.renameCi))
  }

  /** Harvests one more expression. */
  method EnterDoc(builder: IndexBuilder, math: Item, xmlId: string, crawlId: nat, ghost docs: seq<Doc>)
      returns (ghost d: Doc)
    requires builder.Valid() && Ground(Flat(math.e, math.head))
    requires IdsFit(builder.meaningDictionary.keys) ==>
               Indexed(builder.index.tree, builder.formulaDb.data, docs, builder.meaningDictionary.keys)
    modifies builder.index, builder.index.Repr(), builder.formulaDb, builder.meaningDictionary
    ensures builder.Valid() && fresh(builder.index.Repr() - old(builder.index.Repr()))
    ensures d == Doc(math, xmlId, crawlId, builder.renameCi, d.known) && ByOccurrence(d)
    ensures old(builder.meaningDictionary.keys) <= builder.meaningDictionary.keys
    ensures IdsFit(builder.meaningDictionary.keys) ==>
              Indexed(builder.index.tree, builder.formulaDb.data, docs + [d], builder.meaningDictionary.keys)
  {
    hide Indexed, Entered, CodesAre, IdsFit, NoRepeats, Flat, Ground, CodeSet, CiNames, AddAll, SomeTooWide, NotWide;
    ghost var tree, data, keys := builder.index.tree, builder.formulaDb.data, builder.meaningDictionary.keys;
    var _, codes, known := builder.IndexContentMath(math, xmlId, crawlId);
    d := Doc(math, xmlId, crawlId, builder.renameCi, known);
    DictionaryLists(builder);
    if IdsFit(builder.meaningDictionary.keys) {
      FitBefore(keys, builder.meaningDictionary.keys);
      IndexedSnoc(tree, data, docs, keys, d, builder.index.tree, builder.formulaDb.data, codes,
                  builder.meaningDictionary.keys);
    }
  }

  lemma DictionaryLists(builder: IndexBuilder)
    requires builder.Valid()
    ensures NoRepeats(builder.meaningDictionary.keys)
  {
  }
}
