/** Harvesting and answering queries from the index in memory. */
module HarvestQueries {
  import opened Tokens
  import opened Tries
  import opened TmpIndexes
  import opened Expressions
  import opened ExpressionEncoders
  import opened AlphaEncoding
  import opened IdDictionaries
  import opened Numberings
  import opened QueryIds
  import opened ExpressionInstances
  import Accessors
  import opened Sectors
  import opened SectorLayout
  import opened SectorReadBack
  import opened Exports
  import opened FrozenIndex
  import opened IndexBuilders
  import opened Libraries
  import opened ExpressionSearch
  import opened FormulaSearch
  import Formulae
  import opened Wrappers
  import Q = Queries
  import A = Answers

  /** An expression as the parser of harvests hands it on. */
  datatype Harvested = Harvested(math: Item, xmlId: string, crawlId: nat)

  /** One document for each harvested expression, with names numbered by occurrence. */
  ghost predicate DocsOf(docs: seq<Doc>, harvest: seq<Harvested>, renameCi: bool)
  {
    && |docs| == |harvest|
    && forall i | 0 <= i < |docs| ::
         && ByOccurrence(docs[i])
         && docs[i] == Doc(harvest[i].math, harvest[i].xmlId, harvest[i].crawlId, renameCi, docs[i].known)
  }

  /** A builder with nothing entered. */
  method NewBuilder(renameCi: bool) returns (builder: IndexBuilder)
    ensures builder.Valid() && builder.renameCi == renameCi
    ensures fresh(builder.index) && fresh(builder.index.Repr()) && fresh(builder.formulaDb)
    ensures fresh(builder.meaningDictionary)
    ensures Indexed(builder.index.tree, builder.formulaDb.data, [], builder.meaningDictionary.keys)
  {
    hide Indexed, Conserved, TmpIndex.Linked, NoRepeats, NumberOf;
    var formulaDb := new A.MemFormulaDb();
    var dictionary := new IdDictionary();
    var index := new TmpIndex();
    NothingConserved();
    NothingIndexed();
    builder := new IndexBuilder(formulaDb, index, dictionary, renameCi);
  }

  /** Enters what was harvested, one expression after the other. */
  method LoadHarvest(builder: IndexBuilder, harvest: seq<Harvested>) returns (ghost docs: seq<Doc>)
    requires builder.Valid() && forall i | 0 <= i < |harvest| :: Ground(Flat(harvest[i].math.e, harvest[i].math.head))
    requires Indexed(builder.index.tree, builder.formulaDb.data, [], builder.meaningDictionary.keys)
    modifies builder.index, builder.index.Repr(), builder.formulaDb, builder.meaningDictionary
    ensures builder.Valid() && fresh(builder.index.Repr() - old(builder.index.Repr()))
    ensures DocsOf(docs, harvest, builder.renameCi)
    ensures IdsFit(builder.meaningDictionary.keys) ==>
              Indexed(builder.index.tree, builder.formulaDb.data, docs, builder.meaningDictionary.keys)
  {
    hide IndexBuilder.Valid, Indexed, IdsFit, Ground, Flat, ByOccurrence;
    docs := [];
    for i := 0 to |harvest|
      invariant builder.Valid() && fresh(builder.index.Repr() - old(builder.index.Repr()))
      invariant DocsOf(docs, harvest[..i], builder.renameCi)
      invariant IdsFit(builder.meaningDictionary.keys) ==>
                  Indexed(builder.index.tree, builder.formulaDb.data, docs, builder.meaningDictionary.keys)
    {
      ghost var d := EnterDoc(builder, harvest[i].math, harvest[i].xmlId, harvest[i].crawlId, docs);
      docs := docs + [d];
    }
    assert harvest[..|harvest|] == harvest;
  }

  class HarvestQueryHandler {
    const indexBuilder: IndexBuilder
    ghost var docs: seq<Doc>

    ghost predicate Valid()
      reads this, indexBuilder, indexBuilder.formulaDb, indexBuilder.meaningDictionary
      reads indexBuilder.index, indexBuilder.index.Repr()
    {
      && indexBuilder.Valid()
      && (IdsFit(indexBuilder.meaningDictionary.keys) ==>
            Indexed(indexBuilder.index.tree, indexBuilder.formulaDb.data, docs, indexBuilder.meaningDictionary.keys))
    }

    constructor (harvest: seq<Harvested>, renameCi: bool)
      requires forall i | 0 <= i < |harvest| :: Ground(Flat(harvest[i].math.e, harvest[i].math.head))
      ensures Valid() && DocsOf(docs, harvest, renameCi) && indexBuilder.renameCi == renameCi
      ensures (forall i | 0 <= i < |harvest| :: Formulae.PlainTags(harvest[i].math.e)) ==> AllPlain(docs, renameCi)
      ensures fresh(indexBuilder.meaningDictionary)
    {
      hide IndexBuilder.Valid, Indexed, Ground, Flat, DocsOf, IdsFit, AllPlain, Formulae.PlainTags;
      var builder := NewBuilder(renameCi);
      ghost var entered := LoadHarvest(builder, harvest);
      indexBuilder, docs := builder, entered;
      PlainHarvest(entered, harvest, renameCi);
    }

    /** Answers a query from what was harvested. */
    method HandleQuery(query: Item, options: A.Options, page: A.Page, limits: Expr -> Q.Interval,
                       parse: string -> Option<real>)
        returns (result: A.Answset)
      requires Valid() && IdsFit(indexBuilder.meaningDictionary.keys) && WellFormed(indexBuilder.index.tree, 1)
      requires var items := Flat(query.e, query.head);
               Childless(items) && EnoughIds(items, NamesOf(items))
      modifies indexBuilder.meaningDictionary
      ensures Valid() && indexBuilder.meaningDictionary.keys == old(indexBuilder.meaningDictionary.keys)
      ensures var items, keys := Flat(query.e, query.head), indexBuilder.meaningDictionary.keys;
              var rd := ReadingOf(items, indexBuilder.renameCi, limits, parse);
              && (!Answerable(items, keys, rd.known, rd.renameCi) ==> result == A.NOTHING_FOUND)
              && (page.offset + page.size < TWO_32
                  && (Answerable(items, keys, rd.known, rd.renameCi) ==> InBands(items, NamesOf(items)))
                  ==>
                  && Finds(result, indexBuilder.index.tree, docs, keys, query, rd, options, page)
                  && (AllPlain(docs, rd.renameCi) && Formulae.PlainTags(query.e) ==>
                        FindsFormulae(result, docs, query, rd, options, page)))
    {
      hide Answerable, InBands, EnoughIds, Childless, Flat, Indexed, Finds, FindsFormulae, NamesOf, WellFormed,
           IdsFit, Conserved, TmpIndex.Valid, TmpIndex.Linked, NoRepeats, NumberOf, CiNames, AddAll,
           Accessors.View, Accessors.IsNode, AllPlain, Formulae.PlainTags;
      TreeReadable(indexBuilder.index);
      var tree := indexBuilder.index.Read();
      var ix := Accessors.TmpIndex(tree);
      IndexOf(tree);
      result := ExpressionSearch.HandleQuery(indexBuilder.meaningDictionary, indexBuilder.renameCi, ix,
                                             indexBuilder.formulaDb, query, options, page, limits, parse, docs,
                                             indexBuilder.index.nextId);
      ghost var keys := indexBuilder.meaningDictionary.keys;
      ghost var rd := ReadingOf(Flat(query.e, query.head), indexBuilder.renameCi, limits, parse);
      if AllPlain(docs, rd.renameCi) && Formulae.PlainTags(query.e)
         && Finds(result, tree, docs, keys, query, rd, options, page) {
        FindsAreFormulae(result, tree, docs, keys, query, rd, options, page);
      }
    }
  }

  /** Writes the index to a sector that can be opened and shows the same tree if all leaf fields fit. */
  method WriteIndex(index: TmpIndex, longStart: nat) returns (m: seq<Byte>)
    requires index.Valid() && WellFormed(index.tree, 1) && Dense(index.tree)
    requires longStart <= TWO_32 && |Exported(index.tree, longStart)| < TWO_34
    ensures m == Exported(index.tree, longStart)
    ensures |m| >= HEADER_SIZE && HEADER_SIZE + Load(m, 8, 8) <= |m| && Intact(m)
    ensures var ix := LoadIndex(m);
            && Accessors.IsIndex(ix)
            && (Accessors.View(ix, Accessors.GetRootNode(ix)) == index.tree <==> FieldsFit(index.tree))
  {
    hide Exported, Intact, FieldsFit, WellFormed, Dense, TmpIndex.Valid, TmpIndex.Linked, Accessors.View,
         Accessors.IsIndex;
    TreeReadable(index);
    var tree := index.Read();
    var mswr := new MemsectorWriter.Create(longStart);
    var exporter := new Exporter(mswr);
    exporter.ExportToMemsector(tree);
    m := mswr.file;
    ExportIsIntact(tree, longStart);
    ExportIsFaithful(tree, longStart);
  }

  lemma PlainHarvest(docs: seq<Doc>, harvest: seq<Harvested>, renameCi: bool)
    requires DocsOf(docs, harvest, renameCi)
    requires forall i | 0 <= i < |harvest| :: Ground(Flat(harvest[i].math.e, harvest[i].math.head))
    ensures (forall i | 0 <= i < |harvest| :: Formulae.PlainTags(harvest[i].math.e)) ==> AllPlain(docs, renameCi)
  {
    hide Ground, Flat, Formulae.PlainTags, ByOccurrence;
  }

  lemma IndexOf(tree: Trie)
    ensures var ix := Accessors.TmpIndex(tree);
            Accessors.IsIndex(ix) && Accessors.View(ix, Accessors.GetRootNode(ix)) == tree
  {
  }

  lemma TreeReadable(index: TmpIndex)
    requires index.Valid()
    ensures index.Linked()
  {
  }

  lemma NothingConserved()
    ensures Conserved(Inner([]), 0, map[])
  {
    forall w
      ensures !IsLeafPath(Inner([]), w)
    {
      assert w != [] ==> Child(Inner([]), w[0]) == None;
    }
  }
}
