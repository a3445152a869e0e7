/** Schema queries: the expressions of a query are encoded together and grouped by what is shown of them. */
module SchemaQueries {
  import opened Tokens
  import opened Terms
  import opened Schemas
  import opened SchemaEngines
  import opened SchemaClasses
  import opened Expressions
  import opened CiRenaming
  import opened ExpressionEncoders
  import opened AlphaEncoding
  import opened IdDictionaries
  import opened Numberings
  import opened ExpressionInstances
  import opened DecodedExpressions
  import opened Wrappers
  import F = Formulae
  import IB = IndexBuilders
  import Libraries

  // ---------------------------------------------------------------- encoding

  ghost predicate AllGround(exprs: seq<Item>)
  {
    forall i | 0 <= i < |exprs| :: Ground(Flat(exprs[i].e, exprs[i].head))
  }

  /** The expressions that can be encoded. */
  ghost function Encodable(exprs: seq<Item>): seq<Item>
    decreases |exprs|
  {
    if exprs == [] then []
    else Encodable(Init(exprs)) + if F.Narrow(Last(exprs).e) then [Last(exprs)] else []
  }

  /** The elements of all expressions, one after the other; of an expression that cannot be encoded, those
      before the element that is too wide. */
  ghost function Elements(exprs: seq<Item>): seq<Item>
    decreases |exprs|
  {
    if exprs == [] then [] else Elements(Init(exprs)) + BeforeWide(Flat(Last(exprs).e, Last(exprs).head))
  }

  /** The codes that were not skipped. */
  ghost function Somes(codes: IB.Codes): seq<seq<Token>>
    decreases |codes|
  {
    if codes == [] then [] else Somes(Init(codes)) + if Last(codes).Some? then [Last(codes).value] else []
  }

  /** Each formula is the code of its expression. */
  ghost predicate AreCodesOf(formulae: seq<seq<Token>>, items: seq<Item>, known: seq<string>, keys: seq<string>,
                             renameCi: bool)
  {
    && |formulae| == |items|
    && forall i | 0 <= i < |items| ::
         var s := Stored(items[i].e, items[i].head, known, renameCi);
         Codable(s, keys) && formulae[i] == Code(s, keys)
  }

  lemma {:induction false} CodesOfEncodable(exprs: seq<Item>, codes: IB.Codes, known: seq<string>, keys: seq<string>,
                                            renameCi: bool)
    requires AllGround(exprs) && IB.CodesAre(codes, exprs, known, keys, renameCi)
    ensures AreCodesOf(Somes(codes), Encodable(exprs), known, keys, renameCi)
    decreases |exprs|
  {
    hide Flat, IB.Known, IB.CodeOf, SomeTooWide, Ground, Codable, Code, Stored, F.Narrow;
    if exprs != [] {
      var it := Last(exprs);
      assert forall i | 0 <= i < |exprs| - 1 :: Init(exprs)[i] == exprs[i] && Init(codes)[i] == codes[i];
      CodesOfEncodable(Init(exprs), Init(codes), known, keys, renameCi);
      F.NarrowIff(it.e, it.head);
      if !SomeTooWide(Flat(it.e, it.head)) {
        Libraries.BuilderCode(it, known, keys, renameCi);
      }
    }
  }

  /** Encodes the expressions with one encoder; those that cannot be encoded are left out. */
  method EncodeAll(encoder: ExpressionEncoder, renameCi: bool, exprs: seq<Item>)
      returns (formulae: seq<seq<Token>>, kept: seq<Item>)
    requires encoder.Valid() && encoder.harvesting && encoder.known == [] && AllGround(exprs)
    modifies encoder, encoder.meaningDictionary
    ensures encoder.Valid()
    ensures IdsFit(encoder.meaningDictionary.keys) ==>
              && kept == Encodable(exprs)
              && AreCodesOf(formulae, kept, encoder.known, encoder.meaningDictionary.keys, renameCi)
    ensures |formulae| == |kept| && forall i | 0 <= i < |formulae| :: IsCode(formulae[i], 1)
    ensures encoder.known == F.Known(Elements(exprs), renameCi)
  {
    hide *;
    formulae, kept := [], [];
    ghost var codes: IB.Codes := [];
    NothingEncoded(encoder, renameCi);
    for i := 0 to |exprs|
      invariant encoder.Valid() && EncodedSoFar(encoder, renameCi, exprs[..i], formulae, kept, codes)
    {
      assert exprs[..i + 1] == exprs[..i] + [exprs[i]];
      GroundAt(exprs, i);
      ghost var c;
      formulae, kept, c := EncodeNext(encoder, renameCi, exprs[..i], exprs[i], formulae, kept, codes);
      codes := codes + [c];
    }
    assert exprs[..|exprs|] == exprs;
    AllIsEncoded(encoder, renameCi, exprs, formulae, kept, codes);
  }

  ghost predicate EncodedSoFar(encoder: ExpressionEncoder, renameCi: bool, done: seq<Item>, formulae: seq<seq<Token>>,
                               kept: seq<Item>, codes: IB.Codes)
    reads encoder, encoder.meaningDictionary
  {
    var keys := encoder.meaningDictionary.keys;
    && AllGround(done) && encoder.harvesting
    && |formulae| == |kept| && (forall k | 0 <= k < |formulae| :: IsCode(formulae[k], 1))
    && (IdsFit(keys) ==>
          && IB.CodesAre(codes, done, encoder.known, keys, renameCi)
          && formulae == Somes(codes) && kept == Encodable(done))
    && encoder.known == F.Known(Elements(done), renameCi)
  }

  lemma NothingEncoded(encoder: ExpressionEncoder, renameCi: bool)
    requires encoder.harvesting && encoder.known == []
    ensures EncodedSoFar(encoder, renameCi, [], [], [], [])
  {
  }

  lemma GroundAt(exprs: seq<Item>, i: nat)
    requires AllGround(exprs) && i < |exprs|
    ensures Ground(Flat(exprs[i].e, exprs[i].head))
  {
  }

  lemma AllIsEncoded(encoder: ExpressionEncoder, renameCi: bool, exprs: seq<Item>, formulae: seq<seq<Token>>,
                     kept: seq<Item>, codes: IB.Codes)
    requires EncodedSoFar(encoder, renameCi, exprs, formulae, kept, codes)
    ensures var keys := encoder.meaningDictionary.keys;
            && (IdsFit(keys) ==> kept == Encodable(exprs) && AreCodesOf(formulae, kept, encoder.known, keys, renameCi))
            && |formulae| == |kept| && (forall i | 0 <= i < |formulae| :: IsCode(formulae[i], 1))
            && encoder.known == F.Known(Elements(exprs), renameCi)
  {
    hide AllGround, IB.CodesAre, AreCodesOf, Somes, Encodable, IdsFit, IsCode, Elements, F.Known, F.Narrow;
    if IdsFit(encoder.meaningDictionary.keys) {
      CodesOfEncodable(exprs, codes, encoder.known, encoder.meaningDictionary.keys, renameCi);
    }
  }

  method EncodeNext(encoder: ExpressionEncoder, renameCi: bool, ghost done: seq<Item>, it: Item,
                    formulae: seq<seq<Token>>, kept: seq<Item>, ghost codes: IB.Codes)
      returns (formulae': seq<seq<Token>>, kept': seq<Item>, ghost c: Option<seq<Token>>)
    requires encoder.Valid() && EncodedSoFar(encoder, renameCi, done, formulae, kept, codes)
    requires Ground(Flat(it.e, it.head))
    modifies encoder, encoder.meaningDictionary
    ensures encoder.Valid() && EncodedSoFar(encoder, renameCi, done + [it], formulae', kept', codes + [c])
  {
    hide IdsFit, Flat, SomeTooWide, Ground, Encoded, SomeUnknown, NumberOf, NoRepeats, AddAll, CiNames, VarNames,
         IB.CodesAre, IB.Known, IB.CodeOf, Somes, Encodable, Elements, IsCode, F.Narrow, F.Known, BeforeWide;
    ghost var known0, keys0 := encoder.known, encoder.meaningDictionary.keys;
    var rv, encTok := encoder.Encode(renameCi, it);
    IB.AfterEncoding(it, encTok, known0, keys0, encoder.known, encoder.meaningDictionary.keys, renameCi, rv);
    c := if rv == 0 then Some(encTok) else None;
    if IdsFit(encoder.meaningDictionary.keys) {
      IB.FitBefore(keys0, encoder.meaningDictionary.keys);
      IB.EncoderLists(encoder);
      IB.CodesSnoc(codes, done, known0, keys0, renameCi, it, c, encoder.known, encoder.meaningDictionary.keys);
    }
    F.NarrowIff(it.e, it.head);
    OneMoreExpression(done, it, codes, c, renameCi);
    formulae', kept' := formulae, kept;
    if rv == 0 {
      formulae', kept' := formulae + [encTok], kept + [it];
    }
  }

  lemma OneMoreExpression(done: seq<Item>, it: Item, codes: IB.Codes, c: Option<seq<Token>>, renameCi: bool)
    requires AllGround(done) && Ground(Flat(it.e, it.head))
    ensures AllGround(done + [it])
    ensures Somes(codes + [c]) == if c.Some? then Somes(codes) + [c.value] else Somes(codes)
    ensures Encodable(done + [it]) == if F.Narrow(it.e) then Encodable(done) + [it] else Encodable(done)
    ensures F.Known(Elements(done + [it]), renameCi)
            == AddAll(F.Known(Elements(done), renameCi), CiNames(BeforeWide(Flat(it.e, it.head)), renameCi))
  {
    hide Ground, Flat, F.Narrow, CiNames, AddAll, BeforeWide;
    var more := BeforeWide(Flat(it.e, it.head));
    var done' := done + [it];
    assert Init(done') == done && Last(done') == it && done'[|done|] == it;
    assert forall k | 0 <= k < |done| :: done'[k] == done[k];
    assert Init(codes + [c]) == codes;
    IB.CiNamesConcat(Elements(done), more, renameCi);
    AddAllParts([], CiNames(Elements(done), renameCi), CiNames(more, renameCi));
  }

  // ---------------------------------------------------------------- schemata

  /** The schema of an expression at a cut-off. */
  function SchemaFor(it: Item, known: seq<string>, renameCi: bool, cut: nat): Cmml {
    if cut == 0 then Qvar(0) else Shown(it, known, renameCi, 1, cut, 1)
  }

  /** The expressions look the same at a cut-off. */
  ghost predicate LookSame(a: Item, b: Item, known: seq<string>, renameCi: bool, cut: nat)
  {
    cut == 0 || SameDown(a, b, known, renameCi, 1, cut)
  }

  /** s is the schema of its last expression, and of all others of its class with the same cut-off. */
  ghost predicate IsSchemaFor(s: ExprSchema, kept: seq<Item>, cuts: seq<nat>, known: seq<string>, renameCi: bool)
    requires |cuts| == |kept|
  {
    && s.formulae != [] && s.coverage == |s.formulae|
    && (forall i | i in s.formulae :: i < |kept|) && Last(s.formulae) < |kept|
    && (forall i, j | 0 <= i < j < |s.formulae| :: s.formulae[i] < s.formulae[j])
    && forall i | i in s.formulae && cuts[i] == cuts[Last(s.formulae)] ::
         s.root == SchemaFor(kept[i], known, renameCi, cuts[i])
  }

  /** The class of s holds exactly the expressions that look like any one of its own; all have one cut-off. */
  ghost predicate IsClass(s: ExprSchema, kept: seq<Item>, known: seq<string>, renameCi: bool, cut: nat)
  {
    forall i, j | 0 <= i < |kept| && 0 <= j < |kept| && i in s.formulae ::
      j in s.formulae <==> LookSame(kept[i], kept[j], known, renameCi, cut)
  }

  ghost predicate AllPlain(items: seq<Item>)
  {
    forall i | 0 <= i < |items| :: F.PlainTags(items[i].e)
  }

  /** The formulae, their expressions and their terms, and how they are decoded. */
  datatype Given =
    Given(formulae: seq<seq<Token>>, kept: seq<Item>, ts: seq<Term>, known: seq<string>, keys: seq<string>,
          renameCi: bool, dec: Decoder)

  ghost predicate GivenAt(g: Given, i: nat)
    requires i < |g.kept| && |g.ts| == |g.formulae| == |g.kept|
  {
    var s := Stored(g.kept[i].e, g.kept[i].head, g.known, g.renameCi);
    && F.PlainTags(g.kept[i].e) && Codable(s, g.keys)
    && g.formulae[i] == Code(s, g.keys) && g.ts[i] == TermOf(s, g.keys)
  }

  ghost predicate IsGiven(g: Given)
  {
    && IdsFit(g.keys) && Decodes(g.dec, g.keys) && |g.ts| == |g.formulae| == |g.kept|
    && forall i | 0 <= i < |g.kept| :: GivenAt(g, i)
  }

  lemma SchemaOfGiven(g: Given, i: nat, cut: nat)
    requires IsGiven(g) && i < |g.kept|
    ensures g.formulae[i] != []
    ensures SchemaOf(g.dec, g.formulae[i], g.ts[i], cut) == SchemaFor(g.kept[i], g.known, g.renameCi, cut)
  {
    hide Codable, Code, Stored, F.PlainTags, IdsFit, Decodes, TermOf, Schema, Shown, IsCode;
    assert GivenAt(g, i);
    OneCode(Stored(g.kept[i].e, g.kept[i].head, g.known, g.renameCi), g.keys);
    CodeNotEmpty(g.formulae[i]);
    SchemaShows(g.dec, g.keys, g.kept[i], g.known, g.renameCi, 1, cut, 1);
  }

  lemma CodeNotEmpty(w: seq<Token>)
    requires IsCode(w, 1)
    ensures w != []
  {
  }

  lemma SameKeyLooksSame(g: Given, i: nat, j: nat, cut: nat)
    requires IsGiven(g) && i < |g.kept| && j < |g.kept|
    ensures Key(g.dec, g.formulae[i], g.ts[i], cut) == Key(g.dec, g.formulae[j], g.ts[j], cut)
       <==> LookSame(g.kept[i], g.kept[j], g.known, g.renameCi, cut)
  {
    hide Codable, Code, Stored, F.PlainTags, IdsFit, Decodes, TermOf, CutOf, SameDown, Reduced, Ranked, Preorder,
         IsCode;
    assert GivenAt(g, i) && GivenAt(g, j);
    TermOfCode(Stored(g.kept[i].e, g.kept[i].head, g.known, g.renameCi), g.keys);
    TermOfCode(Stored(g.kept[j].e, g.kept[j].head, g.known, g.renameCi), g.keys);
    if cut > 0 {
      SameKeySameCut(g.dec, g.ts[i], g.ts[j], cut);
      CutIsSame(g.dec, g.keys, g.kept[i], g.kept[j], g.known, g.renameCi, 1, cut);
    }
  }

  /** What the engine promises of the codes, said of the expressions. */
  lemma SchemaIsFor(engine: SchemaEngine, g: Given, cuts: seq<nat>, s: ExprSchema)
    requires IsGiven(g) && engine.decoder == g.dec && |cuts| == |g.kept|
    requires engine.IsSchema(s, g.formulae, cuts, g.ts)
    ensures IsSchemaFor(s, g.kept, cuts, g.known, g.renameCi)
  {
    hide GivenAt, SchemaOf, SchemaFor, Key, IdsFit, Decodes;
    forall i | i in s.formulae && cuts[i] == cuts[Last(s.formulae)]
      ensures s.root == SchemaFor(g.kept[i], g.known, g.renameCi, cuts[i])
    {
      SchemaOfGiven(g, i, cuts[i]);
    }
  }

  lemma SchemaIsClass(engine: SchemaEngine, g: Given, cuts: seq<nat>, s: ExprSchema, cut: nat)
    requires IsGiven(g) && engine.decoder == g.dec && |cuts| == |g.kept|
    requires engine.IsSchema(s, g.formulae, cuts, g.ts) && forall i | 0 <= i < |cuts| :: cuts[i] == cut
    ensures IsClass(s, g.kept, g.known, g.renameCi, cut)
  {
    hide GivenAt, SchemaOf, LookSame, Key, IdsFit, Decodes;
    forall i, j | 0 <= i < |g.kept| && 0 <= j < |g.kept| && i in s.formulae
      ensures j in s.formulae <==> LookSame(g.kept[i], g.kept[j], g.known, g.renameCi, cut)
    {
      SameKeyLooksSame(g, i, j, cut);
    }
  }

  lemma GivenCodes(g: Given)
    requires IsGiven(g)
    ensures AreCodes(g.formulae, g.ts)
  {
    hide Codable, Code, Stored, F.PlainTags, IdsFit, Decodes, TermOf, Ranked, Preorder;
    forall i | 0 <= i < |g.kept|
      ensures Ranked(g.ts[i]) && g.formulae[i] == Preorder(g.ts[i])
    {
      assert GivenAt(g, i);
      TermOfCode(Stored(g.kept[i].e, g.kept[i].head, g.known, g.renameCi), g.keys);
    }
  }

  lemma {:induction false} TermsFor(formulae: seq<seq<Token>>) returns (ts: seq<Term>)
    requires forall i | 0 <= i < |formulae| :: IsCode(formulae[i], 1)
    ensures AreCodes(formulae, ts)
    decreases |formulae|
  {
    hide IsCode, Ranked, Preorder;
    ts := [];
    if formulae != [] {
      var before := TermsFor(Init(formulae));
      CodeIffTerm(Last(formulae));
      var t: Term :| Ranked(t) && Preorder(t) == Last(formulae);
      ts := before + [t];
    }
  }

  lemma GivenFor(formulae: seq<seq<Token>>, exprs: seq<Item>, known: seq<string>, keys: seq<string>, renameCi: bool,
                 dec: Decoder)
      returns (g: Given)
    requires IdsFit(keys) && Decodes(dec, keys) && AllPlain(exprs)
    requires AreCodesOf(formulae, Encodable(exprs), known, keys, renameCi)
    ensures IsGiven(g) && AreCodes(formulae, g.ts)
    ensures g == Given(formulae, Encodable(exprs), g.ts, known, keys, renameCi, dec)
  {
    hide Codable, Stored, F.PlainTags, IdsFit, Decodes, TermOf, AreCodes, Encodable, IsCode, Code;
    var kept := Encodable(exprs);
    assert forall i | 0 <= i < |kept| :: Codable(Stored(kept[i].e, kept[i].head, known, renameCi), keys);
    var ts := seq(|kept|, i requires 0 <= i < |kept| => TermOf(Stored(kept[i].e, kept[i].head, known, renameCi), keys));
    g := Given(formulae, kept, ts, known, keys, renameCi, dec);
    forall i | 0 <= i < |kept|
      ensures GivenAt(g, i)
    {
      KeptFrom(exprs, kept[i]);
    }
    GivenCodes(g);
  }

  lemma {:induction false} KeptFrom(exprs: seq<Item>, it: Item)
    ensures it in Encodable(exprs) <==> it in exprs && F.Narrow(it.e)
    decreases |exprs|
  {
    hide F.Narrow;
    if exprs != [] {
      KeptFrom(Init(exprs), it);
      assert exprs == Init(exprs) + [Last(exprs)];
    }
  }

  function CutsFor(kept: seq<Item>, heuristic: CutoffHeuristic, share: Item -> nat, maxDepth: nat): (cuts: seq<nat>)
    ensures |cuts| == |kept|
  {
    seq(|kept|, i requires 0 <= i < |kept| => if heuristic.ABSOLUTE? then maxDepth else share(kept[i]))
  }

  /** Each schema is that of its class, the classes are different, and with an absolute cut-off they are the
      classes of expressions that look the same. */
  ghost predicate Schematized(schemata: seq<ExprSchema>, kept: seq<Item>, heuristic: CutoffHeuristic,
                              share: Item -> nat, maxDepth: nat, known: seq<string>, renameCi: bool)
  {
    var cuts := CutsFor(kept, heuristic, share, maxDepth);
    && (forall j | 0 <= j < |schemata| :: IsSchemaFor(schemata[j], kept, cuts, known, renameCi))
    && (heuristic.ABSOLUTE? ==>
          forall j | 0 <= j < |schemata| :: IsClass(schemata[j], kept, known, renameCi, maxDepth))
    && (forall i, j | 0 <= i < j < |schemata| :: schemata[i].formulae != schemata[j].formulae)
    && (forall i, j | 0 <= i < j < |schemata| :: schemata[i].coverage >= schemata[j].coverage)
  }

  /** Some schema covers formula i. */
  ghost predicate Covered(schemata: seq<ExprSchema>, i: nat)
  {
    exists j :: 0 <= j < |schemata| && i in schemata[j].formulae
  }

  /** Encodes the expressions of a schema query and returns the schemata of the biggest classes. */
  method HandleQuery(exprs: seq<Item>, renameCi: bool, heuristic: CutoffHeuristic, share: Item -> nat, maxTotal: nat,
                     maxDepth: nat)
      returns (total: nat, schemata: seq<ExprSchema>, ghost known: seq<string>, ghost keys: seq<string>)
    requires AllGround(exprs)
    ensures known == F.Known(Elements(exprs), renameCi)
    ensures |schemata| == if maxTotal != 0 && maxTotal < total then maxTotal else total
    ensures IdsFit(keys) && AllPlain(exprs) ==>
              && Schematized(schemata, Encodable(exprs), heuristic, share, maxDepth, known, renameCi)
              && (|schemata| == total ==> forall i | 0 <= i < |Encodable(exprs)| :: Covered(schemata, i))
  {
    hide *;
    var formulae, kept, table;
    formulae, kept, table, known, keys := EncodeQuery(exprs, renameCi);
    total, schemata := SchemataOf(formulae, kept, table, heuristic, share, maxTotal, maxDepth, exprs, renameCi, known);
  }

  method EncodeQuery(exprs: seq<Item>, renameCi: bool)
      returns (formulae: seq<seq<Token>>, kept: seq<Item>, table: seq<string>, ghost known: seq<string>,
               ghost keys: seq<string>)
    requires AllGround(exprs)
    ensures table == keys && |formulae| == |kept| && (forall i | 0 <= i < |formulae| :: IsCode(formulae[i], 1))
    ensures IdsFit(keys) ==> kept == Encodable(exprs) && AreCodesOf(formulae, kept, known, keys, renameCi)
    ensures known == F.Known(Elements(exprs), renameCi)
  {
    hide IdsFit, AllGround, Encodable, AreCodesOf, IsCode, F.Known, Elements, F.Narrow, NoRepeats, NumberOf, Alias;
    var dict := new IdDictionary();
    var encoder := new ExpressionEncoder(dict, true);
    formulae, kept := EncodeAll(encoder, renameCi, exprs);
    known, keys := encoder.known, dict.keys;
    table := dict.GetReverseLookupTable();
  }

  /** The schemata of the encoded expressions, decoded by the lookup table. */
  method SchemataOf(formulae: seq<seq<Token>>, kept: seq<Item>, table: seq<string>, heuristic: CutoffHeuristic,
                    share: Item -> nat, maxTotal: nat, maxDepth: nat, ghost exprs: seq<Item>, ghost renameCi: bool,
                    ghost known: seq<string>)
      returns (total: nat, schemata: seq<ExprSchema>)
    requires |formulae| == |kept| && forall i | 0 <= i < |formulae| :: IsCode(formulae[i], 1)
    requires IdsFit(table) ==> kept == Encodable(exprs) && AreCodesOf(formulae, kept, known, table, renameCi)
    ensures |schemata| == if maxTotal != 0 && maxTotal < total then maxTotal else total
    ensures IdsFit(table) && AllPlain(exprs) ==>
              && Schematized(schemata, kept, heuristic, share, maxDepth, known, renameCi)
              && (|schemata| == total ==> forall i | 0 <= i < |kept| :: Covered(schemata, i))
  {
    hide IdsFit, AllPlain, Encodable, AreCodesOf, IsCode, Schematized, AreCodes, IsGiven, DecoderOf, Decodes, Covered,
         SchemaEngine.Keys, SchemaEngine.Cutoffs, SchemaEngine.IsSchema, KeySet, Members;
    var schemaEngine := new SchemaEngine(DecoderOf(table), heuristic);
    var shares := seq(|kept|, i requires 0 <= i < |kept| => share(kept[i]));
    EngineCuts(schemaEngine, kept, share, maxDepth, shares);
    ghost var ts := TermsFor(formulae);
    ghost var g := Given(formulae, kept, ts, known, table, renameCi, schemaEngine.decoder);
    ghost var fits := IdsFit(table) && AllPlain(exprs);
    if fits {
      DecoderDecodes(table);
      g := GivenFor(formulae, exprs, known, table, renameCi, schemaEngine.decoder);
      ts := g.ts;
    }
    TermsAreMany(formulae, ts);
    total, schemata := schemaEngine.GetSchemata(formulae, shares, maxTotal, maxDepth, ts);
    if fits {
      Schematizes(schemaEngine, g, share, maxDepth, schemata);
      AllInClasses(schemaEngine, g, CutsFor(kept, heuristic, share, maxDepth), schemata, total);
    }
  }

  lemma TermsAreMany(formulae: seq<seq<Token>>, ts: seq<Term>)
    requires AreCodes(formulae, ts)
    ensures |ts| == |formulae|
  {
  }

  lemma EngineCuts(engine: SchemaEngine, kept: seq<Item>, share: Item -> nat, maxDepth: nat, shares: seq<nat>)
    requires shares == seq(|kept|, i requires 0 <= i < |kept| => share(kept[i]))
    ensures engine.Cutoffs(|kept|, maxDepth, shares) == CutsFor(kept, engine.cutoffHeuristic, share, maxDepth)
  {
  }

  lemma Schematizes(engine: SchemaEngine, g: Given, share: Item -> nat, maxDepth: nat, schemata: seq<ExprSchema>)
    requires IsGiven(g) && engine.decoder == g.dec
    requires var cuts := CutsFor(g.kept, engine.cutoffHeuristic, share, maxDepth);
             forall j | 0 <= j < |schemata| :: engine.IsSchema(schemata[j], g.formulae, cuts, g.ts)
    requires forall i, j | 0 <= i < j < |schemata| :: schemata[i].formulae != schemata[j].formulae
    requires forall i, j | 0 <= i < j < |schemata| :: schemata[i].coverage >= schemata[j].coverage
    ensures Schematized(schemata, g.kept, engine.cutoffHeuristic, share, maxDepth, g.known, g.renameCi)
  {
    hide GivenAt, Decodes, IdsFit, IsClass, IsSchemaFor, SchemaEngine.IsSchema;
    var cuts := CutsFor(g.kept, engine.cutoffHeuristic, share, maxDepth);
    forall j | 0 <= j < |schemata|
      ensures IsSchemaFor(schemata[j], g.kept, cuts, g.known, g.renameCi)
      ensures engine.cutoffHeuristic.ABSOLUTE? ==> IsClass(schemata[j], g.kept, g.known, g.renameCi, maxDepth)
    {
      SchemaIsFor(engine, g, cuts, schemata[j]);
      if engine.cutoffHeuristic.ABSOLUTE? {
        SchemaIsClass(engine, g, cuts, schemata[j], maxDepth);
      }
    }
  }

  lemma AllInClasses(engine: SchemaEngine, g: Given, cuts: seq<nat>, schemata: seq<ExprSchema>, total: nat)
    requires IsGiven(g) && engine.decoder == g.dec && |cuts| == |g.kept|
    requires var keys := engine.Keys(g.formulae, cuts, g.ts);
             forall i | 0 <= i < |keys| ::
               || (exists j | 0 <= j < |schemata| :: schemata[j].formulae == Members(keys, keys[i]))
               || (|schemata| < total && forall j | 0 <= j < |schemata| ::
                   schemata[j].coverage >= |Members(keys, keys[i])|)
    ensures |schemata| == total ==> forall i | 0 <= i < |g.kept| :: Covered(schemata, i)
  {
    hide GivenAt, Decodes, IdsFit;
    var keys := engine.Keys(g.formulae, cuts, g.ts);
    if |schemata| == total {
      forall i | 0 <= i < |g.kept|
        ensures Covered(schemata, i)
      {
        var j :| 0 <= j < |schemata| && schemata[j].formulae == Members(keys, keys[i]);
        assert i in schemata[j].formulae;
      }
    }
  }
}
