/** What is decoded from the code of an expression shows the expression's own tags, texts and children. */
module DecodedExpressions {
  import opened Tokens
  import opened Terms
  import opened Schemas
  import opened Expressions
  import opened CiRenaming
  import opened ExpressionEncoders
  import opened AlphaEncoding
  import opened ExpressionInstances
  import opened IdDictionaries
  import opened Numberings
  import opened SchemaHashes
  import opened Formulae
  import opened Wrappers

  // ---------------------------------------------------------------- tags and texts

  lemma CleanTagIs(tag: string)
    ensures CleanTag("m:" + tag) == tag
    ensures !("m:" <= tag) ==> CleanTag(tag) == tag
  {
  }

  /** Spaces go, and all else stays. */
  lemma {:induction false} NoSpacesIs(s: string)
    ensures (forall c | c in s :: IsSpace(c)) ==> NoSpaces(s) == ""
    ensures (forall c | c in s :: !IsSpace(c)) ==> NoSpaces(s) == s
    decreases |s|
  {
    if s != "" {
      NoSpacesIs(s[1..]);
      assert s[0] in s && s == [s[0]] + s[1..];
    }
  }

  /** A meaning is read as the tag before its first separator and the text behind it. */
  lemma NodeIsText(dec: Decoder, tok: Token, tag: string, text: string, children: seq<Cmml>)
    requires '#' !in tag && dec(tok.id) == tag + "#" + text
    ensures NodeOf(dec, tok, children) == Node(CleanTag(tag), NoSpaces(text), children)
    ensures IsApply(dec, tok) <==> "apply" <= tag
  {
    hide CleanTag, NoSpaces;
    var m := dec(tok.id);
    assert forall i | 0 <= i < |tag| :: m[i] == tag[i];
    assert m[|tag|] == '#';
    FirstIsOnly(m, HashAt(m, 0), |tag|);
    assert m[..|tag|] == tag && m[|tag| + 1..] == text;
  }

  /** Without a separator the meaning is a tag. */
  lemma NodeIsTag(dec: Decoder, tok: Token, children: seq<Cmml>)
    requires '#' !in dec(tok.id)
    ensures NodeOf(dec, tok, children) == Node(CleanTag(dec(tok.id)), "", children)
    ensures IsApply(dec, tok) <==> "apply" <= dec(tok.id)
  {
    hide CleanTag;
  }

  // ---------------------------------------------------------------- elements

  /** The decoder has each meaning of the dictionary under its id. */
  ghost predicate Decodes(dec: Decoder, keys: seq<string>)
  {
    forall m | m in keys :: dec(ConstantId(NumberOf(keys, m))) == m
  }

  /** The decoder of a lookup table; ids of other tokens are not asked for. */
  function DecoderOf(table: seq<string>): Decoder {
    (id: MeaningId) => if IsConstantId(table, id) then GetMeaning(table, id) else ""
  }

  lemma DecoderDecodes(keys: seq<string>)
    requires IdsFit(keys)
    ensures Decodes(DecoderOf(keys), keys)
  {
    forall m | m in keys
      ensures DecoderOf(keys)(ConstantId(NumberOf(keys, m))) == m
    {
      var n := NumberOf(keys, m);
      assert keys[n - 1] == m && ConstantId(n) == CONSTANT_ID_MIN + n;
    }
  }

  /** What is shown of an element: tag and text, or the number of a short name. */
  function ShownTag(it: Item, known: seq<string>, renameCi: bool): string {
    if IsShortName(it, renameCi) then "~" + Decimal(NumberOf(known, "ci#" + it.e.text)) else CleanTag(it.e.tag)
  }

  function ShownText(it: Item, renameCi: bool): string {
    if IsShortName(it, renameCi) || it.e.tag == "mtext" then "" else NoSpaces(it.e.text)
  }

  lemma ElementShown(dec: Decoder, keys: seq<string>, it: Item, n: Arity, known: seq<string>, renameCi: bool,
                     children: seq<Cmml>)
    requires Decodes(dec, keys) && '#' !in it.e.tag && Translated(it, known, renameCi) in keys
    ensures var tok := MeaningToken(Translated(it, known, renameCi), n, keys);
            && NodeOf(dec, tok, children) == Node(ShownTag(it, known, renameCi), ShownText(it, renameCi), children)
            && (IsApply(dec, tok) <==> "apply" <= it.e.tag)
  {
    hide CleanTag, NoSpaces, NumberOf, IsRenamed, NodeOf, IsApply;
    var m := Translated(it, known, renameCi);
    var tok := MeaningToken(m, n, keys);
    assert dec(tok.id) == m;
    RenamedIff(it, renameCi);
    ShortMeaning(it, renameCi);
    if IsShortName(it, renameCi) {
      AliasShown(NumberOf(known, "ci#" + it.e.text));
      NodeIsTag(dec, tok, children);
    } else {
      MeaningShown(it.e);
      NodeIsText(dec, tok, it.e.tag, if it.e.tag == "mtext" then "" else it.e.text, children);
      NoSpacesIs("");
    }
  }

  lemma MeaningShown(e: Expr)
    ensures e.Meaning() == e.tag + "#" + if e.tag == "mtext" then "" else e.text
  {
  }

  lemma AliasShown(n: nat)
    ensures Alias(n) == "~" + Decimal(n) && '#' !in Alias(n) && CleanTag(Alias(n)) == Alias(n)
    ensures !("apply" <= Alias(n))
  {
    DecimalDigits(n);
    AliasStart(n);
    assert forall i | 0 < i < |Alias(n)| :: Alias(n)[i] == Decimal(n)[i - 1] && Alias(n)[i] != '#';
  }

  // ---------------------------------------------------------------- terms

  ghost function TermOf(s: Shape, keys: seq<string>): Term
    requires Codable(s, keys)
    decreases s, 0
  {
    Term(MeaningToken(s.sym.meaning, |s.kids|, keys), TermsOf(s.kids, keys))
  }

  ghost function TermsOf(ss: seq<Shape>, keys: seq<string>): (r: seq<Term>)
    requires AllCodable(ss, keys)
    ensures |r| == |ss|
    decreases ss, 1
  {
    if ss == [] then [] else
      assert AllCodable(ss[1..], keys) by { assert forall i | 0 <= i < |ss| - 1 :: ss[1..][i] == ss[i + 1]; }
      [TermOf(ss[0], keys)] + TermsOf(ss[1..], keys)
  }

  lemma {:induction false} TermOfCode(s: Shape, keys: seq<string>)
    requires Codable(s, keys)
    ensures Ranked(TermOf(s, keys)) && Preorder(TermOf(s, keys)) == Code(s, keys)
    decreases s, 0
  {
    TermsOfCode(s.kids, keys);
  }

  lemma {:induction false} TermsOfCode(ss: seq<Shape>, keys: seq<string>)
    requires AllCodable(ss, keys)
    ensures forall i | 0 <= i < |ss| :: Ranked(TermsOf(ss, keys)[i])
    ensures PreorderAll(TermsOf(ss, keys)) == CodeAll(ss, keys)
    decreases ss, 1
  {
    hide TermOf, Ranked, Preorder, Code;
    if ss != [] {
      assert forall i | 0 <= i < |ss| - 1 :: ss[1..][i] == ss[i + 1];
      TermOfCode(ss[0], keys);
      TermsOfCode(ss[1..], keys);
    }
  }

  // ---------------------------------------------------------------- trees

  /** The tree shown of an element on level h: a child is shown above the cut-off d, and as first child of an
      apply; variables stand for the others, numbered from n on. */
  function Shown(it: Item, known: seq<string>, renameCi: bool, h: nat, d: nat, n: nat): Cmml
    decreases it.e, 0, 0
  {
    Node(ShownTag(it, known, renameCi), ShownText(it, renameCi),
         ShownKids(it.e.kids, it.e.tag == "apply", "apply" <= it.e.tag, known, renameCi, h, d, n))
  }

  function ShownKids(es: seq<Expr>, head: bool, first: bool, known: seq<string>, renameCi: bool, h: nat, d: nat,
                     n: nat): seq<Cmml>
    decreases es, 1, 0
  {
    if es == [] then []
    else if h < d || first then
      [Shown(Item(es[0], head), known, renameCi, h + 1, d, n)]
      + ShownKids(es[1..], false, false, known, renameCi, h, d, n + HiddenIn(es[0], h + 1, d))
    else
      [Qvar(n)] + ShownKids(es[1..], false, false, known, renameCi, h, d, n + 1)
  }

  /** The number of subexpressions that are cut off. */
  function HiddenIn(e: Expr, h: nat, d: nat): nat
    decreases e, 0, 0
  {
    HiddenInAll(e.kids, "apply" <= e.tag, h, d)
  }

  function HiddenInAll(es: seq<Expr>, first: bool, h: nat, d: nat): nat
    decreases es, 1, 0
  {
    if es == [] then 0
    else (if h < d || first then HiddenIn(es[0], h + 1, d) else 1) + HiddenInAll(es[1..], false, h, d)
  }

  /** The schema of a stored expression is what is shown of the expression. */
  lemma {:induction false} SchemaShows(dec: Decoder, keys: seq<string>, it: Item, known: seq<string>, renameCi: bool,
                                       h: nat, d: nat, n: nat)
    requires Decodes(dec, keys) && PlainTags(it.e) && Codable(Stored(it.e, it.head, known, renameCi), keys)
    ensures var t := TermOf(Stored(it.e, it.head, known, renameCi), keys);
            && Schema(dec, t, h, d, n) == Shown(it, known, renameCi, h, d, n)
            && |Skipped(dec, t, h, d)| == HiddenIn(it.e, h, d)
    decreases it.e, 0
  {
    hide NodeOf, IsApply, MeaningToken, Translated, ShownTag, ShownText, Decodes;
    var s := Stored(it.e, it.head, known, renameCi);
    var kids := SchemaKids(dec, TermsOf(s.kids, keys), h, d, "apply" <= it.e.tag, n);
    ElementShown(dec, keys, it, |it.e.kids|, known, renameCi, kids);
    SchemasShow(dec, keys, it.e.kids, it.e.tag == "apply", "apply" <= it.e.tag, known, renameCi, h, d, n);
  }

  lemma {:induction false} SchemasShow(dec: Decoder, keys: seq<string>, es: seq<Expr>, head: bool, first: bool,
                                       known: seq<string>, renameCi: bool, h: nat, d: nat, n: nat)
    requires Decodes(dec, keys) && (forall i | 0 <= i < |es| :: PlainTags(es[i]))
    requires AllCodable(StoredAll(es, head, known, renameCi), keys)
    ensures var ts := TermsOf(StoredAll(es, head, known, renameCi), keys);
            && SchemaKids(dec, ts, h, d, first, n) == ShownKids(es, head, first, known, renameCi, h, d, n)
            && |SkippedKids(dec, ts, h, d, first)| == HiddenInAll(es, first, h, d)
    decreases es, 1
  {
    hide Stored, PlainTags, Codable, Schema, Shown, Skipped, HiddenIn, TermOf, Decodes;
    if es != [] {
      var ss := StoredAll(es, head, known, renameCi);
      assert forall i | 0 <= i < |ss| - 1 :: ss[1..][i] == ss[i + 1];
      assert ss[0] == Stored(es[0], head, known, renameCi) && ss[1..] == StoredAll(es[1..], false, known, renameCi);
      SchemaShows(dec, keys, Item(es[0], head), known, renameCi, h + 1, d, n);
      SchemasShow(dec, keys, es[1..], false, false, known, renameCi, h, d,
                  n + if h < d || first then HiddenIn(es[0], h + 1, d) else 1);
    }
  }

  /** The whole tree of an expression. */
  function Whole(it: Item, known: seq<string>, renameCi: bool): Cmml
    decreases it.e, 0
  {
    Node(ShownTag(it, known, renameCi), ShownText(it, renameCi),
         WholeAll(it.e.kids, it.e.tag == "apply", known, renameCi))
  }

  function WholeAll(es: seq<Expr>, head: bool, known: seq<string>, renameCi: bool): seq<Cmml>
    decreases es, 1
  {
    if es == [] then [] else [Whole(Item(es[0], head), known, renameCi)] + WholeAll(es[1..], false, known, renameCi)
  }

  lemma {:induction false} TreeShows(dec: Decoder, keys: seq<string>, it: Item, known: seq<string>, renameCi: bool)
    requires Decodes(dec, keys) && PlainTags(it.e) && Codable(Stored(it.e, it.head, known, renameCi), keys)
    ensures Tree(dec, TermOf(Stored(it.e, it.head, known, renameCi), keys)) == Whole(it, known, renameCi)
    decreases it.e, 0
  {
    hide NodeOf, MeaningToken, Translated, ShownTag, ShownText, Decodes;
    var s := Stored(it.e, it.head, known, renameCi);
    ElementShown(dec, keys, it, |it.e.kids|, known, renameCi, Trees(dec, TermsOf(s.kids, keys)));
    TreesShow(dec, keys, it.e.kids, it.e.tag == "apply", known, renameCi);
  }

  lemma {:induction false} TreesShow(dec: Decoder, keys: seq<string>, es: seq<Expr>, head: bool, known: seq<string>,
                                     renameCi: bool)
    requires Decodes(dec, keys) && (forall i | 0 <= i < |es| :: PlainTags(es[i]))
    requires AllCodable(StoredAll(es, head, known, renameCi), keys)
    ensures Trees(dec, TermsOf(StoredAll(es, head, known, renameCi), keys)) == WholeAll(es, head, known, renameCi)
    decreases es, 1
  {
    hide Stored, PlainTags, Codable, Tree, Whole, TermOf, Decodes;
    if es != [] {
      var ss := StoredAll(es, head, known, renameCi);
      assert forall i | 0 <= i < |ss| - 1 :: ss[1..][i] == ss[i + 1];
      assert ss[0] == Stored(es[0], head, known, renameCi) && ss[1..] == StoredAll(es[1..], false, known, renameCi);
      TreeShows(dec, keys, Item(es[0], head), known, renameCi);
      TreesShow(dec, keys, es[1..], false, known, renameCi);
    }
  }

  /** Without renaming a clean expression is shown with its own tags and texts. */
  ghost predicate Clean(e: Expr)
    decreases e
  {
    && '#' !in e.tag && !("m:" <= e.tag) && (forall c | c in e.text :: !IsSpace(c))
    && forall i | 0 <= i < |e.kids| :: Clean(e.kids[i])
  }

  /** c has the tags, texts and children of e; the text of an mtext is empty. */
  ghost predicate IsTreeFor(c: Cmml, e: Expr)
    decreases e
  {
    && c.Node? && c.tag == e.tag && c.text == (if e.tag == "mtext" then "" else e.text) && |c.children| == |e.kids|
    && forall i | 0 <= i < |e.kids| :: IsTreeFor(c.children[i], e.kids[i])
  }

  lemma {:induction false} WholeIsTree(it: Item, known: seq<string>)
    requires Clean(it.e)
    ensures IsTreeFor(Whole(it, known, false), it.e)
    decreases it.e, 0
  {
    hide CleanTag, NoSpaces;
    CleanTagIs(it.e.tag);
    NoSpacesIs(it.e.text);
    WholesAreTrees(it.e.kids, it.e.tag == "apply", known);
  }

  lemma {:induction false} WholesAreTrees(es: seq<Expr>, head: bool, known: seq<string>)
    requires forall i | 0 <= i < |es| :: Clean(es[i])
    ensures var cs := WholeAll(es, head, known, false);
            |cs| == |es| && forall i | 0 <= i < |es| :: IsTreeFor(cs[i], es[i])
    decreases es, 1
  {
    hide Clean, IsTreeFor, Whole;
    if es != [] {
      WholeIsTree(Item(es[0], head), known);
      WholesAreTrees(es[1..], false, known);
    }
  }

  lemma {:induction false} CleanIsPlain(e: Expr)
    requires Clean(e)
    ensures PlainTags(e)
    decreases e
  {
    forall i | 0 <= i < |e.kids|
      ensures PlainTags(e.kids[i])
    {
      CleanIsPlain(e.kids[i]);
    }
  }

  /** No element below e is cut off. */
  ghost predicate Reaches(e: Expr, h: nat, d: nat)
    decreases e
  {
    forall i | 0 <= i < |e.kids| :: h < d && Reaches(e.kids[i], h + 1, d)
  }

  /** A schema that is deep enough is the whole tree. */
  lemma {:induction false} DeepShowsWhole(it: Item, known: seq<string>, renameCi: bool, h: nat, d: nat, n: nat)
    requires Reaches(it.e, h, d)
    ensures Shown(it, known, renameCi, h, d, n) == Whole(it, known, renameCi) && HiddenIn(it.e, h, d) == 0
    decreases it.e, 0
  {
    hide ShownTag, ShownText;
    assert it.e.kids != [] ==> Reaches(it.e.kids[0], h + 1, d);
    DeepShowWhole(it.e.kids, it.e.tag == "apply", "apply" <= it.e.tag, known, renameCi, h, d, n);
  }

  lemma {:induction false} DeepShowWhole(es: seq<Expr>, head: bool, first: bool, known: seq<string>, renameCi: bool,
                                         h: nat, d: nat, n: nat)
    requires forall i | 0 <= i < |es| :: h < d && Reaches(es[i], h + 1, d)
    ensures ShownKids(es, head, first, known, renameCi, h, d, n) == WholeAll(es, head, known, renameCi)
    ensures HiddenInAll(es, first, h, d) == 0
    decreases es, 1
  {
    hide Shown, Whole, HiddenIn, Reaches;
    if es != [] {
      assert h < d && Reaches(es[0], h + 1, d);
      DeepShowsWhole(Item(es[0], head), known, renameCi, h + 1, d, n);
      DeepShowWhole(es[1..], false, false, known, renameCi, h, d, n);
    }
  }

  /** Round trip: without renaming, a schema that is deep enough, of the code of a clean expression, has the
      tags, texts and children of the expression. */
  lemma DeepSchemaIsExpression(dec: Decoder, keys: seq<string>, it: Item, t: Term, d: nat, n: nat)
    requires Decodes(dec, keys) && Clean(it.e) && Codable(Stored(it.e, it.head, [], false), keys)
    requires Ranked(t) && Preorder(t) == Code(Stored(it.e, it.head, [], false), keys) && Reaches(it.e, 1, d)
    ensures IsTreeFor(Schema(dec, t, 1, d, n), it.e) && IsTreeFor(Tree(dec, t), it.e)
  {
    hide Decodes, Clean, Codable, Stored, Ranked, Preorder, Code, TermOf, Reaches, Schema, Tree, Shown, Whole,
         IsTreeFor;
    var s := Stored(it.e, it.head, [], false);
    TermOfCode(s, keys);
    assert Preorder(t) + [] == Preorder(TermOf(s, keys)) + [];
    PreorderUnique(t, TermOf(s, keys), [], []);
    CleanIsPlain(it.e);
    SchemaShows(dec, keys, it, [], false, 1, d, n);
    TreeShows(dec, keys, it, [], false);
    DeepShowsWhole(it, [], false, 1, d, n);
    WholeIsTree(it, []);
  }

  // ---------------------------------------------------------------- classes

  /** a and b agree in what is shown of them: everything above the cut-off, and the first children of apply. */
  ghost predicate SameDown(a: Item, b: Item, known: seq<string>, renameCi: bool, h: nat, d: nat)
    decreases a.e
  {
    && SameElement(a, b, known, known, renameCi) && |a.e.kids| == |b.e.kids|
    && forall i | 0 <= i < |a.e.kids| && (h < d || (i == 0 && "apply" <= a.e.tag)) ::
         SameDown(Kid(a, i), Kid(b, i), known, renameCi, h + 1, d)
  }

  lemma {:induction false} TermAt(ss: seq<Shape>, keys: seq<string>, i: nat)
    requires AllCodable(ss, keys) && i < |ss|
    ensures TermsOf(ss, keys)[i] == TermOf(ss[i], keys)
    decreases |ss|
  {
    hide TermOf, Codable;
    if i > 0 {
      assert forall j | 0 <= j < |ss| - 1 :: ss[1..][j] == ss[j + 1];
      TermAt(ss[1..], keys, i - 1);
    }
  }

  lemma {:induction false} CutAt(dec: Decoder, ts: seq<Term>, h: nat, d: nat, first: bool, i: nat)
    requires i < |ts|
    ensures CutKids(dec, ts, h, d, first)[i] == if h < d || (first && i == 0) then CutOf(dec, ts[i], h + 1, d) else Hole
    decreases |ts|
  {
    hide CutOf;
    if i > 0 {
      CutAt(dec, ts[1..], h, d, false, i - 1);
    }
  }

  /** What is left of the term of child i. */
  lemma CutOfKid(dec: Decoder, keys: seq<string>, it: Item, known: seq<string>, renameCi: bool, h: nat, d: nat, i: nat)
    requires Decodes(dec, keys) && '#' !in it.e.tag && Codable(Stored(it.e, it.head, known, renameCi), keys)
    requires i < |it.e.kids|
    ensures Codable(Stored(Kid(it, i).e, Kid(it, i).head, known, renameCi), keys)
    ensures var cut := CutOf(dec, TermOf(Stored(it.e, it.head, known, renameCi), keys), h, d);
            && cut.Cut? && |cut.kids| == |it.e.kids|
            && cut.kids[i] ==
               if h < d || (i == 0 && "apply" <= it.e.tag) then
                 CutOf(dec, TermOf(Stored(Kid(it, i).e, Kid(it, i).head, known, renameCi), keys), h + 1, d)
               else Hole
  {
    hide NodeOf, IsApply, MeaningToken, Translated, Decodes;
    var s := Stored(it.e, it.head, known, renameCi);
    KidStored(it, known, renameCi, i);
    ElementShown(dec, keys, it, |it.e.kids|, known, renameCi, []);
    TermAt(s.kids, keys, i);
    CutAt(dec, TermsOf(s.kids, keys), h, d, "apply" <= it.e.tag, i);
  }

  lemma CutRoot(dec: Decoder, keys: seq<string>, it: Item, known: seq<string>, renameCi: bool, h: nat, d: nat)
    requires Codable(Stored(it.e, it.head, known, renameCi), keys)
    ensures |it.e.kids| <= ENC_TOK_MAX_ARITY && Translated(it, known, renameCi) in keys
    ensures var cut := CutOf(dec, TermOf(Stored(it.e, it.head, known, renameCi), keys), h, d);
            cut.Cut? && |cut.kids| == |it.e.kids|
                && cut.tok == MeaningToken(Translated(it, known, renameCi), |it.e.kids|, keys)
  {
    hide MeaningToken, Translated, IsApply;
  }

  /** Two expressions have the same truncated term exactly when they agree in what is shown. */
  lemma {:induction false} CutIsSame(dec: Decoder, keys: seq<string>, a: Item, b: Item, known: seq<string>,
                                     renameCi: bool, h: nat, d: nat)
    requires Decodes(dec, keys) && IdsFit(keys) && PlainTags(a.e) && PlainTags(b.e)
    requires Codable(Stored(a.e, a.head, known, renameCi), keys) && Codable(Stored(b.e, b.head, known, renameCi), keys)
    ensures CutOf(dec, TermOf(Stored(a.e, a.head, known, renameCi), keys), h, d)
            == CutOf(dec, TermOf(Stored(b.e, b.head, known, renameCi), keys), h, d)
       <==> SameDown(a, b, known, renameCi, h, d)
    decreases a.e
  {
    hide MeaningToken, Translated, Decodes, IdsFit, CutOf, TermOf, Stored, Codable, SameElement;
    CutRoot(dec, keys, a, known, renameCi, h, d);
    CutRoot(dec, keys, b, known, renameCi, h, d);
    TranslationIsElement(a, b, known, known, renameCi);
    MeaningTokenInjective(Translated(a, known, renameCi), |a.e.kids|, Translated(b, known, renameCi), |b.e.kids|, keys);
    var x, y := CutOf(dec, TermOf(Stored(a.e, a.head, known, renameCi), keys), h, d),
        CutOf(dec, TermOf(Stored(b.e, b.head, known, renameCi), keys), h, d);
    if SameElement(a, b, known, known, renameCi) && |a.e.kids| == |b.e.kids| {
      SameApply(a, b, known, renameCi);
      forall i | 0 <= i < |a.e.kids|
        ensures x.kids[i] == y.kids[i]
           <==> (h < d || (i == 0 && "apply" <= a.e.tag) ==> SameDown(Kid(a, i), Kid(b, i), known, renameCi, h + 1, d))
      {
        CutOfKid(dec, keys, a, known, renameCi, h, d, i);
        CutOfKid(dec, keys, b, known, renameCi, h, d, i);
        CutIsSame(dec, keys, Kid(a, i), Kid(b, i), known, renameCi, h + 1, d);
      }
      assert x.kids == y.kids <==> forall i | 0 <= i < |a.e.kids| :: x.kids[i] == y.kids[i];
    }
  }

  lemma SameApply(a: Item, b: Item, known: seq<string>, renameCi: bool)
    requires SameElement(a, b, known, known, renameCi)
    ensures a.e.tag == b.e.tag
  {
    hide NumberOf;
  }
}
