/** The analysis of an index of harvested expressions. */
module HarvestAnalytics {
  import opened Tokens
  import opened Terms
  import opened Tries
  import opened Accessors
  import opened Schemas
  import opened CmmlTokenBuilders
  import opened Analytics
  import opened Expressions
  import opened CiRenaming
  import opened ExpressionEncoders
  import opened AlphaEncoding
  import opened IdDictionaries
  import opened Numberings
  import opened ExpressionInstances
  import opened Formulae
  import opened DecodedExpressions
  import opened Libraries
  import opened ExpressionSearch
  import opened FormulaSearch
  import opened Wrappers
  import IB = IndexBuilders
  import A = Answers

  // ---------------------------------------------------------------- what is promised

  /** A subexpression that can be encoded. */
  ghost predicate FitsAt(docs: seq<Doc>, p: Place)
  {
    IsPlace(docs, p) && Narrow(docs[p.doc].Items()[p.i].e)
  }

  ghost predicate OccursIn(docs: seq<Doc>, p: Place, k: nat)
    requires IsPlace(docs, p)
  {
    exists i: nat :: FitsAt(docs, Place(k, i)) && IsPlace(docs, Place(k, i)) && SameAt(docs, Place(k, i), p)
  }

  /** The harvested expressions in which the formula at p occurs. */
  ghost function Occurrences(docs: seq<Doc>, p: Place): set<nat>
    requires IsPlace(docs, p)
  {
    set k | 0 <= k < |docs| && OccursIn(docs, p, k)
  }

  /** One place for each formula. */
  ghost predicate OneForEach(docs: seq<Doc>, reps: seq<Place>)
  {
    && (forall a | 0 <= a < |reps| :: FitsAt(docs, reps[a]))
    && (forall a, b | 0 <= a < b < |reps| :: !SameAt(docs, reps[a], reps[b]))
    && forall p | FitsAt(docs, p) :: exists a :: 0 <= a < |reps| && SameAt(docs, reps[a], p)
  }

  /** What is handed on of a formula: its tree, and in how many harvested expressions it occurs. */
  ghost predicate ShowsPlace(docs: seq<Doc>, p: Place, seen: (Cmml, nat))
    requires IsPlace(docs, p)
  {
    var d := docs[p.doc];
    && seen.0 == Whole(d.Items()[p.i], d.known, false)
    && (Clean(d.Items()[p.i].e) ==> IsTreeFor(seen.0, d.Items()[p.i].e))
    && seen.1 == |Occurrences(docs, p)|
  }

  /** Every formula is handed on once, or as many as were asked for. */
  ghost predicate Analyzed(docs: seq<Doc>, seen: seq<(Cmml, nat)>, stopAfter: nat)
  {
    exists reps: seq<Place> ::
      && OneForEach(docs, reps) && |seen| == (if 0 < stopAfter < |reps| then stopAfter else |reps|)
      && forall a | 0 <= a < |seen| :: IsPlace(docs, reps[a]) && ShowsPlace(docs, reps[a], seen[a])
  }

  // ---------------------------------------------------------------- every edge leads to a leaf

  lemma {:induction false} SomeLeaf(t: Trie, n: nat) returns (w: seq<Token>)
    requires WellFormed(t, n)
    ensures IsLeafPath(t, w)
    decreases t
  {
    if t.Leaf? {
      w := [];
    } else {
      var rest := SomeLeaf(t.kids[0].node, n - 1 + t.kids[0].tok.arity);
      w := [t.kids[0].tok] + rest;
      LeafBelow(t, n, 0, rest);
    }
  }

  lemma LeafBelow(t: Trie, n: nat, i: nat, rest: seq<Token>)
    requires WellFormed(t, n) && t.Inner? && i < |t.kids| && IsLeafPath(t.kids[i].node, rest)
    ensures IsLeafPath(t, [t.kids[i].tok] + rest)
  {
    ChildAt(t, i);
    assert ([t.kids[i].tok] + rest)[1..] == rest;
  }

  lemma {:induction false} EdgesDecode(dec: Decoder, t: Trie, n: nat)
    requires WellFormed(t, n) && forall w, k | IsLeafPath(t, w) && 0 <= k < |w| :: HasSeparator(dec, w[k])
    ensures Decodable(dec, t)
    decreases t
  {
    hide HasSeparator, IsLeafPath;
    if t.Inner? {
      forall i | 0 <= i < |t.kids|
        ensures HasSeparator(dec, t.kids[i].tok) && Decodable(dec, t.kids[i].node)
      {
        var tok, below := t.kids[i].tok, t.kids[i].node;
        var some := SomeLeaf(below, n - 1 + tok.arity);
        LeafBelow(t, n, i, some);
        assert ([tok] + some)[0] == tok;
        forall w, k | IsLeafPath(below, w) && 0 <= k < |w|
          ensures HasSeparator(dec, w[k])
        {
          LeafBelow(t, n, i, w);
          assert ([tok] + w)[k + 1] == w[k];
        }
        EdgesDecode(dec, below, n - 1 + tok.arity);
      }
    }
  }

  // ---------------------------------------------------------------- the code of a formula

  /** An index of harvested expressions, and the dictionary it was made with. */
  datatype Harvest = Harvest(tree: Trie, nextId: nat, data: IB.Data, docs: seq<Doc>, keys: seq<string>)

  ghost predicate IsHarvest(h: Harvest)
  {
    && WellFormed(h.tree, 1) && IB.Conserved(h.tree, h.nextId, h.data) && Indexed(h.tree, h.data, h.docs, h.keys)
    && IdsFit(h.keys) && AllPlain(h.docs, false)
  }

  ghost predicate HasCode(h: Harvest, p: Place, w: seq<Token>)
    requires FitsAt(h.docs, p)
  {
    Codable(ShapeOfPlace(h.docs, p), h.keys) && Code(ShapeOfPlace(h.docs, p), h.keys) == w
  }

  lemma PlainPlace(h: Harvest, p: Place)
    requires IsHarvest(h) && IsPlace(h.docs, p)
    ensures PlainTags(h.docs[p.doc].Items()[p.i].e) && !h.docs[p.doc].renameCi && DocKnown(h.docs[p.doc], h.keys)
    ensures FitsAt(h.docs, p) <==> h.docs[p.doc].Enterable(p.i)
  {
    hide Doc.Items, Doc.Enterable, PlainTags, Narrow, WellFormed, IB.Conserved, IsLeafPath, IB.EntriesAt, EntriesFor,
         SomeCode, PlainDoc, DocKnown, NoRepeats;
    PlainAt(h.docs[p.doc], p.i);
  }

  /** The codes in a document are those of its subexpressions that fit. */
  lemma CodeInDoc(h: Harvest, k: nat, w: seq<Token>)
    requires IsHarvest(h) && k < |h.docs|
    ensures DocKnown(h.docs[k], h.keys)
    ensures Some(w) in DocCodes(h.docs[k], h.keys)
       <==> exists i: nat :: FitsAt(h.docs, Place(k, i)) && HasCode(h, Place(k, i), w)
  {
    hide Doc.Items, Doc.Enterable, Doc.ShapeAt, IsHarvest, Codable, Code, FitsAt;
    var d := h.docs[k];
    KnownDoc(h, k);
    forall i | 0 <= i < |d.Items()|
      ensures FitsAt(h.docs, Place(k, i)) <==> d.Enterable(i)
    {
      PlainPlace(h, Place(k, i));
    }
    var codes := DocCodes(d, h.keys);
    if Some(w) in codes {
      var i :| 0 <= i < |codes| && codes[i] == Some(w);
      assert HasCode(h, Place(k, i), w);
    }
    forall i: nat | FitsAt(h.docs, Place(k, i)) && HasCode(h, Place(k, i), w)
      ensures Some(w) in codes
    {
      FitsIsPlace(h.docs, Place(k, i));
      assert codes[i] == Some(w);
    }
  }

  lemma FitsIsPlace(docs: seq<Doc>, p: Place)
    requires FitsAt(docs, p)
    ensures IsPlace(docs, p)
  {
  }

  lemma KnownDoc(h: Harvest, k: nat)
    requires IsHarvest(h) && k < |h.docs|
    ensures AllKnown(h.docs, h.keys) && DocKnown(h.docs[k], h.keys)
  {
    hide DocKnown, WellFormed, IB.Conserved, IsLeafPath, IB.EntriesAt, EntriesFor, SomeCode, NoRepeats, PlainDoc;
  }

  /** Every leaf belongs to a formula. */
  lemma LeafHasPlace(h: Harvest, w: seq<Token>) returns (p: Place)
    requires IsHarvest(h) && IsLeafPath(h.tree, w)
    ensures FitsAt(h.docs, p) && HasCode(h, p, w)
  {
    hide DocKnown, DocCodes, WellFormed, IB.Conserved, IsLeafPath, IB.EntriesAt, EntriesFor, NoRepeats, PlainDoc,
         FitsAt, HasCode, IdsFit;
    var k :| 0 <= k < |h.docs| && Some(w) in DocCodes(h.docs[k], h.keys);
    CodeInDoc(h, k, w);
    var i: nat :| FitsAt(h.docs, Place(k, i)) && HasCode(h, Place(k, i), w);
    p := Place(k, i);
  }

  /** Every formula has a leaf. */
  lemma PlaceHasLeaf(h: Harvest, p: Place) returns (w: seq<Token>)
    requires IsHarvest(h) && FitsAt(h.docs, p)
    ensures IsLeafPath(h.tree, w) && HasCode(h, p, w)
  {
    hide DocKnown, DocCodes, WellFormed, IB.Conserved, IsLeafPath, IB.EntriesAt, EntriesFor, NoRepeats, PlainDoc,
         FitsAt, IdsFit, Doc.Enterable, Doc.ShapeAt, Codable, Code;
    FitsIsPlace(h.docs, p);
    KnownDoc(h, p.doc);
    PlainPlace(h, p);
    ShapeKnown(h.docs[p.doc], p.i, h.keys);
    w := Code(ShapeOfPlace(h.docs, p), h.keys);
    CodeInDoc(h, p.doc, w);
    assert HasCode(h, Place(p.doc, p.i), w);
    assert SomeCode(h.docs, h.keys, w);
  }

  lemma ShapeKnown(d: Doc, i: nat, keys: seq<string>)
    requires DocKnown(d, keys) && i < |d.Items()| && d.Enterable(i)
    ensures Codable(d.ShapeAt(i), keys)
  {
    hide Doc.Items, Doc.Enterable, Doc.ShapeAt, Codable;
  }

  /** Codes are equal exactly for the same formulae. */
  lemma CodeIsFormula(h: Harvest, p: Place, v: seq<Token>, r: Place, w: seq<Token>)
    requires IsHarvest(h) && FitsAt(h.docs, p) && FitsAt(h.docs, r) && HasCode(h, p, v) && HasCode(h, r, w)
    ensures v == w <==> SameAt(h.docs, p, r)
  {
    hide Doc.Items, Codable, Code, WellFormed, IB.Conserved, Indexed, AllPlain, SameAt, ShapeOfPlace, Narrow, IdsFit;
    SameIsShape(h.docs, p, r, false);
    if v == w {
      SameCode(ShapeOfPlace(h.docs, p), ShapeOfPlace(h.docs, r), h.keys);
    }
  }

  // ---------------------------------------------------------------- hits

  ghost function CodedIn(docs: seq<Doc>, keys: seq<string>, w: seq<Token>): set<nat>
    requires AllKnown(docs, keys)
  {
    set k | 0 <= k < |docs| && Some(w) in DocCodes(docs[k], keys)
  }

  lemma {:induction false} EntriesAreDocs(docs: seq<Doc>, keys: seq<string>, w: seq<Token>)
    requires AllKnown(docs, keys)
    ensures |EntriesFor(docs, keys, w)| == |CodedIn(docs, keys, w)|
    decreases |docs|
  {
    hide DocKnown, DocCodes, CodedIn;
    if docs == [] {
      NoDocs(keys, w);
    } else {
      EntriesAreDocs(Init(docs), keys, w);
      CodedInLast(docs, keys, w);
    }
  }

  lemma NoDocs(keys: seq<string>, w: seq<Token>)
    ensures CodedIn([], keys, w) == {}
  {
  }

  lemma CodedInLast(docs: seq<Doc>, keys: seq<string>, w: seq<Token>)
    requires AllKnown(docs, keys) && docs != []
    ensures AllKnown(Init(docs), keys)
    ensures var n, before := |docs| - 1, CodedIn(Init(docs), keys, w);
            && n !in before
            && CodedIn(docs, keys, w) == if Some(w) in DocCodes(Last(docs), keys) then before + {n} else before
  {
    hide DocKnown, DocCodes;
    assert forall k | 0 <= k < |docs| - 1 :: Init(docs)[k] == docs[k];
  }

  /** The hits of a leaf are the harvested expressions its formula occurs in. */
  lemma HitsAreOccurrences(h: Harvest, p: Place, w: seq<Token>)
    requires IsHarvest(h) && FitsAt(h.docs, p) && HasCode(h, p, w) && IsLeafPath(h.tree, w)
    ensures LeafAt(h.tree, w).hits == |Occurrences(h.docs, p)|
  {
    hide Doc.Items, Codable, Code, IsHarvest, HasCode, SameAt, IsLeafPath, LeafAt, DocCodes, FitsAt;
    FitsIsPlace(h.docs, p);
    LeafCounts(h, w);
    KnownDoc(h, p.doc);
    EntriesAreDocs(h.docs, h.keys, w);
    forall k | 0 <= k < |h.docs|
      ensures k in CodedIn(h.docs, h.keys, w) <==> k in Occurrences(h.docs, p)
    {
      OccursIffCoded(h, p, w, k);
    }
    assert CodedIn(h.docs, h.keys, w) == Occurrences(h.docs, p);
  }

  lemma LeafCounts(h: Harvest, w: seq<Token>)
    requires IsHarvest(h) && IsLeafPath(h.tree, w)
    ensures AllKnown(h.docs, h.keys) && LeafAt(h.tree, w).hits == |EntriesFor(h.docs, h.keys, w)|
  {
    hide DocKnown, DocCodes, WellFormed, IsLeafPath, LeafAt, EntriesFor, SomeCode, NoRepeats, PlainDoc, IdsFit;
  }

  lemma OccursIffCoded(h: Harvest, p: Place, w: seq<Token>, k: nat)
    requires IsHarvest(h) && FitsAt(h.docs, p) && HasCode(h, p, w) && k < |h.docs| && DocKnown(h.docs[k], h.keys)
    ensures Some(w) in DocCodes(h.docs[k], h.keys) <==> IsPlace(h.docs, p) && OccursIn(h.docs, p, k)
  {
    hide Doc.Items, Codable, Code, IsHarvest, HasCode, SameAt, IsLeafPath, DocCodes, FitsAt;
    FitsIsPlace(h.docs, p);
    CodeInDoc(h, k, w);
    forall i: nat | FitsAt(h.docs, Place(k, i))
      ensures HasCode(h, Place(k, i), w) <==> IsPlace(h.docs, Place(k, i)) && SameAt(h.docs, Place(k, i), p)
    {
      FitsIsPlace(h.docs, Place(k, i));
      var v := PlaceHasLeaf(h, Place(k, i));
      CodeIsFormula(h, Place(k, i), v, p, w);
      OneCodeOnly(h, Place(k, i), v, w);
    }
    if Some(w) in DocCodes(h.docs[k], h.keys) {
      var i: nat :| FitsAt(h.docs, Place(k, i)) && HasCode(h, Place(k, i), w);
      assert SameAt(h.docs, Place(k, i), p);
    }
    if OccursIn(h.docs, p, k) {
      var i: nat :| FitsAt(h.docs, Place(k, i)) && IsPlace(h.docs, Place(k, i)) && SameAt(h.docs, Place(k, i), p);
      assert HasCode(h, Place(k, i), w);
    }
  }

  lemma OneCodeOnly(h: Harvest, p: Place, v: seq<Token>, w: seq<Token>)
    requires FitsAt(h.docs, p) && HasCode(h, p, v)
    ensures HasCode(h, p, w) <==> v == w
  {
    hide Doc.Items, Codable, Code;
  }

  // ---------------------------------------------------------------- trees

  /** The tree rebuilt from the code of a formula is the tree of the formula. */
  lemma TreeOfPlace(h: Harvest, p: Place, w: seq<Token>, c: Cmml)
    requires IsHarvest(h) && FitsAt(h.docs, p) && HasCode(h, p, w) && IsTreeOf(DecoderOf(h.keys), c, w)
    ensures IsPlace(h.docs, p)
    ensures var d := h.docs[p.doc];
            && c == Whole(d.Items()[p.i], d.known, false)
            && (Clean(d.Items()[p.i].e) ==> IsTreeFor(c, d.Items()[p.i].e))
  {
    hide Doc.Items, Codable, Code, Stored, IdsFit, WellFormed, IB.Conserved, Indexed, AllPlain, Narrow, PlainTags,
         Ranked, Preorder, Tree, TermOf, Whole, Clean, IsTreeFor, DecoderOf, Decodes;
    var d, it := h.docs[p.doc], h.docs[p.doc].Items()[p.i];
    PlainPlace(h, p);
    DecoderDecodes(h.keys);
    var t: Term :| Ranked(t) && Preorder(t) == w && c == Tree(DecoderOf(h.keys), t);
    TermOfCode(d.ShapeAt(p.i), h.keys);
    var t' := TermOf(d.ShapeAt(p.i), h.keys);
    assert Preorder(t) + [] == Preorder(t') + [];
    PreorderUnique(t, t', [], []);
    TreeShows(DecoderOf(h.keys), h.keys, it, d.known, false);
    if Clean(it.e) {
      WholeIsTree(it, d.known);
    }
  }

  /** Without renaming all meanings have a separator. */
  lemma {:induction false} CodeDecodes(e: Expr, head: bool, known: seq<string>, keys: seq<string>, k: nat)
    requires IdsFit(keys) && Codable(Stored(e, head, known, false), keys)
    requires k < |Code(Stored(e, head, known, false), keys)|
    ensures HasSeparator(DecoderOf(keys), Code(Stored(e, head, known, false), keys)[k])
    decreases e, 0
  {
    hide IdsFit, DecoderOf, HasSeparator, MeaningToken, Codable, AllCodable, CodeAll, StoredAll, Translated, Code;
    var s := Stored(e, head, known, false);
    CodeParts(s, keys);
    if k == 0 {
      RootDecodes(e, head, known, keys);
    } else {
      CodesDecode(e.kids, e.tag == "apply", known, keys, k - 1);
    }
  }

  lemma CodeParts(s: Shape, keys: seq<string>)
    requires Codable(s, keys)
    ensures s.sym.Fixed? && s.sym.meaning in keys && |s.kids| <= ENC_TOK_MAX_ARITY && AllCodable(s.kids, keys)
    ensures Code(s, keys) == [MeaningToken(s.sym.meaning, |s.kids|, keys)] + CodeAll(s.kids, keys)
  {
  }

  lemma RootDecodes(e: Expr, head: bool, known: seq<string>, keys: seq<string>)
    requires IdsFit(keys) && Translated(Item(e, head), known, false) in keys
    ensures forall n: Arity ::
              HasSeparator(DecoderOf(keys), MeaningToken(Translated(Item(e, head), known, false), n, keys))
  {
    hide IdsFit, DecoderOf;
    DecoderDecodes(keys);
    RenamedIff(Item(e, head), false);
    MeaningShown(e);
    var m := e.Meaning();
    assert m[|e.tag|] == '#';
  }

  lemma {:induction false} CodesDecode(es: seq<Expr>, head: bool, known: seq<string>, keys: seq<string>, k: nat)
    requires IdsFit(keys) && AllCodable(StoredAll(es, head, known, false), keys)
    requires k < |CodeAll(StoredAll(es, head, known, false), keys)|
    ensures HasSeparator(DecoderOf(keys), CodeAll(StoredAll(es, head, known, false), keys)[k])
    decreases es, 1
  {
    hide IdsFit, DecoderOf, HasSeparator, MeaningToken, Codable, Code, Stored;
    var ss := StoredAll(es, head, known, false);
    if es != [] {
      assert forall i | 0 <= i < |ss| - 1 :: ss[1..][i] == ss[i + 1];
      assert ss[0] == Stored(es[0], head, known, false) && ss[1..] == StoredAll(es[1..], false, known, false);
      var n := |Code(ss[0], keys)|;
      if k < n {
        CodeDecodes(es[0], head, known, keys, k);
      } else {
        CodesDecode(es[1..], false, known, keys, k - n);
      }
    }
  }

  lemma HarvestDecodes(h: Harvest)
    requires IsHarvest(h)
    ensures Decodable(DecoderOf(h.keys), h.tree)
  {
    hide DecoderOf, HasSeparator, IsLeafPath, FitsAt, HasCode, Decodable, Indexed, AllPlain, IB.Conserved, IdsFit,
         WellFormed;
    forall w, k | IsLeafPath(h.tree, w) && 0 <= k < |w|
      ensures HasSeparator(DecoderOf(h.keys), w[k])
    {
      var p := LeafHasPlace(h, w);
      PlaceDecodes(h, p, w, k);
    }
    EdgesDecode(DecoderOf(h.keys), h.tree, 1);
  }

  lemma PlaceDecodes(h: Harvest, p: Place, w: seq<Token>, k: nat)
    requires IsHarvest(h) && FitsAt(h.docs, p) && HasCode(h, p, w) && k < |w|
    ensures HasSeparator(DecoderOf(h.keys), w[k])
  {
    hide Doc.Items, DecoderOf, HasSeparator, Codable, Code, Stored, Indexed, AllPlain, IB.Conserved, IdsFit, WellFormed,
         Narrow;
    PlainPlace(h, p);
    var d := h.docs[p.doc];
    CodeDecodes(d.Items()[p.i].e, d.Items()[p.i].head, d.known, h.keys, k);
  }

  // ---------------------------------------------------------------- the analysis

  /** The places of the leaves. */
  ghost predicate AtLeaves(h: Harvest, reps: seq<Place>, all: seq<Spot>)
  {
    |reps| == |all| && forall a | 0 <= a < |reps| :: FitsAt(h.docs, reps[a]) && HasCode(h, reps[a], all[a].path)
  }

  lemma PlacesOfLeaves(h: Harvest, all: seq<Spot>, n: nat) returns (reps: seq<Place>)
    requires IsHarvest(h) && n <= |all| && forall a | 0 <= a < n :: IsLeafPath(h.tree, all[a].path)
    ensures AtLeaves(h, reps, all[..n])
  {
    hide IsHarvest, IsLeafPath, FitsAt, HasCode;
    reps := [];
    if n > 0 {
      reps := PlacesOfLeaves(h, all, n - 1);
      var p := LeafHasPlace(h, all[n - 1].path);
      reps := reps + [p];
    }
  }

  lemma OneForEachLeaf(h: Harvest, reps: seq<Place>, all: seq<Spot>)
    requires IsHarvest(h) && all == Leaves([], h.tree) && AtLeaves(h, reps, all)
    ensures OneForEach(h.docs, reps)
  {
    hide IsHarvest, FitsAt, HasCode, Leaves, IsLeafPath, LeafAt, SameAt, LexLess;
    HarvestLeaves(h);
    forall a | 0 <= a < |reps|
      ensures IsPlace(h.docs, reps[a])
    {
      FitsIsPlace(h.docs, reps[a]);
    }
    forall a, b | 0 <= a < b < |reps|
      ensures !SameAt(h.docs, reps[a], reps[b])
    {
      LeavesDiffer(all, a, b);
      CodeIsFormula(h, reps[a], all[a].path, reps[b], all[b].path);
    }
    forall p | FitsAt(h.docs, p)
      ensures IsPlace(h.docs, p) && exists a :: 0 <= a < |reps| && SameAt(h.docs, reps[a], p)
    {
      FitsIsPlace(h.docs, p);
      var w := PlaceHasLeaf(h, p);
      var a :| 0 <= a < |all| && all[a].path == w;
      CodeIsFormula(h, reps[a], all[a].path, p, w);
    }
  }

  lemma LeavesDiffer(all: seq<Spot>, a: nat, b: nat)
    requires Increasing(all, 0) && a < b < |all|
    ensures all[a].path != all[b].path
  {
    hide LexLess;
    assert all[a].path[0..] == all[a].path && all[b].path[0..] == all[b].path;
    assert LexLess(all[a].path[0..], all[b].path[0..]);
    LexLessIrreflexive(all[a].path);
  }

  lemma HarvestLeaves(h: Harvest)
    requires IsHarvest(h)
    ensures var all := Leaves([], h.tree);
            && Increasing(all, 0)
            && (forall a | 0 <= a < |all| ::
                  IsLeafPath(h.tree, all[a].path) && LeafAt(h.tree, all[a].path) == all[a].node)
            && forall w | IsLeafPath(h.tree, w) :: exists a :: 0 <= a < |all| && all[a].path == w
  {
    hide Leaves, WellFormed, Descend, Increasing, Indexed, AllPlain, IB.Conserved, IdsFit;
    var all := Leaves([], h.tree);
    LeavesExact(h.tree);
    assert forall a | 0 <= a < |all| :: all[a] in all;
    forall w | IsLeafPath(h.tree, w)
      ensures exists a :: 0 <= a < |all| && all[a].path == w
    {
      assert Spot(w, LeafAt(h.tree, w)) in all;
      var a :| 0 <= a < |all| && all[a] == Spot(w, LeafAt(h.tree, w));
    }
  }

  lemma SeenIsAnalyzed(h: Harvest, seen: seq<(Cmml, nat)>, stopAfter: nat)
    requires IsHarvest(h)
    requires var all := Leaves([], h.tree);
             Seen(DecoderOf(h.keys), seen, all) && |seen| == if 0 < stopAfter < |all| then stopAfter else |all|
    ensures Analyzed(h.docs, seen, stopAfter)
  {
    hide IsHarvest, FitsAt, HasCode, Leaves, IsLeafPath, LeafAt, OneForEach, ShowsPlace, DecoderOf, IsTreeOf,
         Increasing;
    var all := Leaves([], h.tree);
    HarvestLeaves(h);
    var reps := PlacesOfLeaves(h, all, |all|);
    assert all[..|all|] == all;
    OneForEachLeaf(h, reps, all);
    forall a | 0 <= a < |seen|
      ensures IsPlace(h.docs, reps[a]) && ShowsPlace(h.docs, reps[a], seen[a])
    {
      ShowsLeaf(h, reps[a], all[a], seen[a]);
    }
  }

  lemma ShowsLeaf(h: Harvest, p: Place, spot: Spot, seen: (Cmml, nat))
    requires IsHarvest(h) && FitsAt(h.docs, p) && HasCode(h, p, spot.path)
    requires IsLeafPath(h.tree, spot.path) && LeafAt(h.tree, spot.path) == spot.node && seen.1 == spot.node.hits
    requires IsTreeOf(DecoderOf(h.keys), seen.0, spot.path)
    ensures IsPlace(h.docs, p) && ShowsPlace(h.docs, p, seen)
  {
    hide IsHarvest, FitsAt, HasCode, IsLeafPath, LeafAt, DecoderOf, IsTreeOf, Doc.Items, Whole, Clean, IsTreeFor,
         Occurrences;
    TreeOfPlace(h, p, spot.path, seen.0);
    HitsAreOccurrences(h, p, spot.path);
  }

  /** Hands on every formula of an index of harvested expressions, with its tags, texts and children and the
      number of harvested expressions it occurs in; the receiver may stop the analysis. Names are not renamed. */
  method AnalyzeHarvest(ix: Index, dictionary: IdDictionary, stopAfter: nat, ghost h: Harvest)
      returns (seen: seq<(Cmml, nat)>)
    requires dictionary.Valid() && dictionary.keys == h.keys
    requires IsNode(ix, GetRootNode(ix)) && View(ix, GetRootNode(ix)) == h.tree && IsHarvest(h)
    ensures Analyzed(h.docs, seen, stopAfter)
  {
    hide Seen, Leaves, Analyzed, DecoderOf, Decodable, View, IsNode, NumberOf, NoRepeats, Indexed, AllPlain,
         IB.Conserved, IdsFit;
    var table := dictionary.GetReverseLookupTable();
    HarvestDecodes(h);
    seen := Analyze(ix, DecoderOf(table), stopAfter);
    SeenIsAnalyzed(h, seen, stopAfter);
  }
}
