/** Formulae compared by the tags, texts and children of their elements, without the meanings that
    the dictionary holds. */
module Formulae {
  import opened Tokens
  import opened Expressions
  import opened CiRenaming
  import opened ExpressionEncoders
  import opened AlphaEncoding
  import opened IdDictionaries
  import opened Numberings
  import opened ExpressionInstances
  import opened Wrappers

  /** No tag contains the character that separates tag and text in a meaning. */
  ghost predicate PlainTags(e: Expr)
    decreases e
  {
    '#' !in e.tag && forall i | 0 <= i < |e.kids| :: PlainTags(e.kids[i])
  }

  function Kid(it: Item, i: nat): Item
    requires i < |it.e.kids|
  {
    Item(it.e.kids[i], it.e.tag == "apply" && i == 0)
  }

  /** A ci of at most one character that is not the head of an application. */
  predicate IsShortName(it: Item, renameCi: bool) {
    renameCi && it.e.tag == "ci" && |it.e.text| <= 1 && !it.head
  }

  /** The same tag and text; the text of an mtext does not matter. */
  predicate SameText(a: Item, b: Item) {
    a.e.tag == b.e.tag && (a.e.tag == "mtext" || a.e.text == b.e.text)
  }

  /** Short names agree if they have the same number among the known names. */
  predicate SameElement(a: Item, b: Item, knownA: seq<string>, knownB: seq<string>, renameCi: bool) {
    if IsShortName(a, renameCi) && IsShortName(b, renameCi) then
      NumberOf(knownA, "ci#" + a.e.text) == NumberOf(knownB, "ci#" + b.e.text)
    else
      !IsShortName(a, renameCi) && !IsShortName(b, renameCi) && SameText(a, b)
  }

  /** The names are exchanged by f. */
  predicate SameUnder(a: Item, b: Item, f: map<string, string>, renameCi: bool) {
    if IsShortName(a, renameCi) && IsShortName(b, renameCi) then
      a.e.text in f && f[a.e.text] == b.e.text
    else
      !IsShortName(a, renameCi) && !IsShortName(b, renameCi) && SameText(a, b)
  }

  /** Two formulae are alike in all their elements. */
  ghost predicate Alike(a: Item, b: Item, same: (Item, Item) -> bool)
    decreases a.e
  {
    && same(a, b) && |a.e.kids| == |b.e.kids|
    && forall i | 0 <= i < |a.e.kids| :: Alike(Kid(a, i), Kid(b, i), same)
  }

  ghost predicate SameFormula(a: Item, b: Item, knownA: seq<string>, knownB: seq<string>, renameCi: bool) {
    Alike(a, b, (x, y) => SameElement(x, y, knownA, knownB, renameCi))
  }

  /** No element has more children than a token can tell. */
  ghost predicate Narrow(e: Expr)
    decreases e
  {
    |e.kids| <= 255 && forall i | 0 <= i < |e.kids| :: Narrow(e.kids[i])
  }

  // ---------------------------------------------------------------- meanings

  /** Meanings are equal exactly when tags and texts are. */
  lemma MeaningIsText(a: Item, b: Item)
    requires '#' !in a.e.tag && '#' !in b.e.tag
    ensures a.e.Meaning() == b.e.Meaning() <==> SameText(a, b)
  {
    FirstHash(a.e);
    FirstHash(b.e);
    var m, n := a.e.Meaning(), b.e.Meaning();
    if m == n {
      FirstIsOnly(m, |a.e.tag|, |b.e.tag|);
      assert a.e.tag == m[..|a.e.tag|] == b.e.tag;
      assert m[|a.e.tag| + 1..] == n[|a.e.tag| + 1..];
    }
  }

  lemma FirstIsOnly(s: string, i: nat, j: nat)
    requires i < |s| && s[i] == '#' && forall k | 0 <= k < i :: s[k] != '#'
    requires j < |s| && s[j] == '#' && forall k | 0 <= k < j :: s[k] != '#'
    ensures i == j
  {
  }

  lemma FirstHash(e: Expr)
    requires '#' !in e.tag
    ensures var m, n := e.Meaning(), |e.tag|;
            && n < |m| && m[..n] == e.tag && m[n] == '#' && (forall i | 0 <= i < n :: m[i] != '#')
            && m[n + 1..] == if e.tag == "mtext" then "" else e.text
  {
    var m, n := e.Meaning(), |e.tag|;
    assert forall i | 0 <= i < n :: m[i] == e.tag[i];
  }

  /** Dictionary entries are equal exactly when the elements are the same. */
  lemma TranslationIsElement(a: Item, b: Item, knownA: seq<string>, knownB: seq<string>, renameCi: bool)
    requires '#' !in a.e.tag && '#' !in b.e.tag
    ensures Translated(a, knownA, renameCi) == Translated(b, knownB, renameCi)
       <==> SameElement(a, b, knownA, knownB, renameCi)
  {
    hide IsRenamed, NumberOf, SameText;
    SameTranslation(a, b, knownA, knownB, renameCi);
    RenamedIff(a, renameCi);
    RenamedIff(b, renameCi);
    MeaningIsText(a, b);
    ShortMeaning(a, renameCi);
    ShortMeaning(b, renameCi);
  }

  lemma ShortMeaning(it: Item, renameCi: bool)
    ensures IsShortName(it, renameCi) ==> it.e.Meaning() == "ci#" + it.e.text
  {
  }

  lemma KidStored(it: Item, known: seq<string>, renameCi: bool, i: nat)
    requires i < |it.e.kids|
    ensures |Stored(it.e, it.head, known, renameCi).kids| == |it.e.kids|
    ensures Stored(it.e, it.head, known, renameCi).kids[i]
            == Stored(Kid(it, i).e, Kid(it, i).head, known, renameCi)
  {
    StoredAt(it.e.kids, it.e.tag == "apply", known, renameCi, i);
  }

  lemma {:induction false} StoredAt(es: seq<Expr>, head: bool, known: seq<string>, renameCi: bool, i: nat)
    requires i < |es|
    ensures StoredAll(es, head, known, renameCi)[i] == Stored(es[i], head && i == 0, known, renameCi)
    decreases |es|
  {
    hide Stored;
    if i > 0 {
      StoredAt(es[1..], false, known, renameCi, i - 1);
    }
  }

  /** Two formulae stand alike in the dictionary exactly when they are the same. */
  lemma {:induction false} StoredIsFormula(a: Item, b: Item, knownA: seq<string>, knownB: seq<string>, renameCi: bool)
    requires PlainTags(a.e) && PlainTags(b.e)
    ensures Stored(a.e, a.head, knownA, renameCi) == Stored(b.e, b.head, knownB, renameCi)
       <==> SameFormula(a, b, knownA, knownB, renameCi)
    decreases a.e
  {
    hide SameElement, Translated;
    TranslationIsElement(a, b, knownA, knownB, renameCi);
    var s, t := Stored(a.e, a.head, knownA, renameCi), Stored(b.e, b.head, knownB, renameCi);
    if |a.e.kids| == |b.e.kids| {
      forall i | 0 <= i < |a.e.kids|
        ensures s.kids[i] == t.kids[i] <==> SameFormula(Kid(a, i), Kid(b, i), knownA, knownB, renameCi)
      {
        KidStored(a, knownA, renameCi, i);
        KidStored(b, knownB, renameCi, i);
        StoredIsFormula(Kid(a, i), Kid(b, i), knownA, knownB, renameCi);
      }
      assert s.kids == t.kids <==> forall i | 0 <= i < |a.e.kids| :: s.kids[i] == t.kids[i];
    }
  }

  // ---------------------------------------------------------------- width

  lemma {:induction false} NarrowIff(e: Expr, head: bool)
    requires Ground(Flat(e, head))
    ensures Narrow(e) <==> !SomeTooWide(Flat(e, head))
    decreases e, 0
  {
    hide IsConstant, FlatAll;
    var it, below := Item(e, head), FlatAll(e.kids, e.tag == "apply");
    assert Flat(e, head) == [it] + below;
    GroundParts([it], below);
    WideParts([it], below);
    NarrowAllIff(e.kids, e.tag == "apply");
    assert [it][0] == it;
  }

  lemma {:induction false} NarrowAllIff(es: seq<Expr>, head: bool)
    requires Ground(FlatAll(es, head))
    ensures (forall i | 0 <= i < |es| :: Narrow(es[i])) <==> !SomeTooWide(FlatAll(es, head))
    decreases es, 1
  {
    hide Narrow, Flat;
    if es != [] {
      GroundParts(Flat(es[0], head), FlatAll(es[1..], false));
      WideParts(Flat(es[0], head), FlatAll(es[1..], false));
      NarrowIff(es[0], head);
      NarrowAllIff(es[1..], false);
      assert forall i | 0 < i < |es| :: es[i] == es[1..][i - 1];
    }
  }

  lemma GroundParts(a: seq<Item>, b: seq<Item>)
    requires Ground(a + b)
    ensures Ground(a) && Ground(b)
  {
    hide IsConstant;
    assert forall i | 0 <= i < |a| :: (a + b)[i] == a[i];
    assert forall i | 0 <= i < |b| :: (a + b)[|a| + i] == b[i];
  }

  lemma WideParts(a: seq<Item>, b: seq<Item>)
    ensures SomeTooWide(a + b) <==> SomeTooWide(a) || SomeTooWide(b)
  {
    hide TooWide;
    if SomeTooWide(a) {
      var i :| 0 <= i < |a| && TooWide(a[i]);
      assert TooWide((a + b)[i]);
    }
    if SomeTooWide(b) {
      var i :| 0 <= i < |b| && TooWide(b[i]);
      assert TooWide((a + b)[|a| + i]);
    }
  }

  // ---------------------------------------------------------------- numbers of names

  /** The names in the order of their numbers. */
  function Known(items: seq<Item>, renameCi: bool): seq<string> {
    AddAll([], CiNames(items, renameCi))
  }

  function ShortNames(items: seq<Item>, renameCi: bool): set<string> {
    set y | y in items && IsShortName(y, renameCi) :: y.e.text
  }

  lemma KnownStep(items: seq<Item>, renameCi: bool)
    requires items != []
    ensures var it, before := Last(items), Known(Init(items), renameCi);
            Known(items, renameCi) == if IsShortName(it, renameCi) then Add(before, "ci#" + it.e.text) else before
  {
    hide IsRenamed, Add;
    RenamedIff(Last(items), renameCi);
    ShortMeaning(Last(items), renameCi);
    var names := CiNames(Init(items), renameCi);
    if IsShortName(Last(items), renameCi) {
      AddAllSnoc([], names, "ci#" + Last(items).e.text);
    } else {
      assert names + [] == names;
    }
  }

  lemma {:induction false} KnownAreShort(items: seq<Item>, renameCi: bool)
    ensures Lists(Known(items, renameCi), ShortNames(items, renameCi))
    decreases |items|
  {
    hide Known, IsShortName, CiNames, Lists, ShortNames, Add;
    if items == [] {
      NothingKnown(renameCi);
    } else {
      KnownAreShort(Init(items), renameCi);
      KnownStep(items, renameCi);
      ShortNamesStep(items, renameCi);
      if IsShortName(Last(items), renameCi) {
        AddName(Known(Init(items), renameCi), ShortNames(Init(items), renameCi), Last(items).e.text);
      }
    }
  }

  /** known lists the names, each once. */
  ghost predicate Lists(known: seq<string>, names: set<string>)
  {
    && |known| == |names| && NoRepeats(known)
    && forall t: string :: "ci#" + t in known <==> t in names
  }

  lemma AddName(known: seq<string>, names: set<string>, text: string)
    requires Lists(known, names)
    ensures Lists(Add(known, "ci#" + text), names + {text})
  {
    hide NoRepeats;
    AddKeeps(known, "ci#" + text);
    if text in names {
      assert names + {text} == names;
    } else {
      forall t: string | "ci#" + t == "ci#" + text
        ensures t == text
      {
        assert t == ("ci#" + t)[3..] == ("ci#" + text)[3..] == text;
      }
    }
  }

  lemma ShortNamesStep(items: seq<Item>, renameCi: bool)
    requires items != []
    ensures var names := ShortNames(Init(items), renameCi);
            ShortNames(items, renameCi)
            == if IsShortName(Last(items), renameCi) then names + {Last(items).e.text} else names
  {
    hide IsShortName;
    assert items == Init(items) + [Last(items)];
  }

  lemma NothingKnown(renameCi: bool)
    ensures Lists(Known([], renameCi), ShortNames([], renameCi))
  {
  }

  /** The number of a short name counts the different ones before its first occurrence, and itself. */
  lemma {:induction false} NumberByOccurrence(items: seq<Item>, renameCi: bool, i: nat)
    requires i < |items| && IsShortName(items[i], renameCi) && items[i].e.text !in ShortNames(items[..i], renameCi)
    ensures NumberOf(Known(items, renameCi), "ci#" + items[i].e.text) == |ShortNames(items[..i], renameCi)| + 1
    decreases |items|
  {
    hide Known, IsShortName, CiNames, NumberOf, ShortNames;
    var before, x := Known(Init(items), renameCi), "ci#" + items[i].e.text;
    KnownAreShort(Init(items), renameCi);
    KnownStep(items, renameCi);
    if i == |items| - 1 {
      assert items[..i] == Init(items);
      AddKeeps(before, x);
    } else {
      assert Init(items)[..i] == items[..i] && Init(items)[i] == items[i];
      NumberByOccurrence(Init(items), renameCi, i);
      KnownAreShort(items, renameCi);
      AddKeeps(before, "ci#" + Last(items).e.text);
      NumberStays(before, Known(items, renameCi), x);
    }
  }

  // ---------------------------------------------------------------- instances

  /** x is q with each named variable replaced by what f has for its name, each variable without a
      name by anything, and each range by a number within its bounds. */
  ghost predicate Replaces(q: Item, x: Item, f: map<string, Item>, rd: Reading, known: seq<string>)
    decreases q.e
  {
    if q.e.tag == "mws:qvar" then
      var name := if q.e.name.Some? then q.e.name.value else q.e.text;
      name == "" || (name in f && SameFormula(f[name], x, known, known, rd.renameCi))
    else if q.e.tag == "mws:range" then
      && x.e.tag == "cn" && x.e.kids == [] && rd.parse(x.e.text).Some?
      && rd.limits(q.e).low <= rd.parse(x.e.text).value <= rd.limits(q.e).high
    else
      && SameElement(q, x, rd.known, known, rd.renameCi) && |q.e.kids| == |x.e.kids|
      && forall i | 0 <= i < |q.e.kids| :: Replaces(Kid(q, i), Kid(x, i), f, rd, known)
  }

  ghost predicate IsInstanceOf(q: Item, x: Item, rd: Reading, known: seq<string>) {
    exists f: map<string, Item> :: Replaces(q, x, f, rd, known)
  }

  /** A range takes exactly the childless cn elements whose text is a number within the bounds. */
  lemma InLimitsIsNumber(q: Item, x: Item, rd: Reading, known: seq<string>)
    requires '#' !in x.e.tag
    ensures InLimits(rd.limits(q.e), Stored(x.e, x.head, known, rd.renameCi), rd.parse)
       <==> && x.e.tag == "cn" && x.e.kids == [] && rd.parse(x.e.text).Some?
            && rd.limits(q.e).low <= rd.parse(x.e.text).value <= rd.limits(q.e).high
  {
    hide IsRenamed, NumberOf, StoredAll;
    RenamedIff(x, rd.renameCi);
    FirstHash(x.e);
    var m, n := x.e.Meaning(), |x.e.tag|;
    if NUMBER_PREF <= Translated(x, known, rd.renameCi) {
      AliasStart(NumberOf(known, m));
      assert m[2] == '#' && n == 2;
      assert x.e.tag == m[..2] == "cn";
    }
    if x.e.tag == "cn" {
      assert NUMBER_PREF + x.e.text == Translated(x, known, rd.renameCi);
    }
  }

  lemma AliasStart(n: nat)
    ensures Alias(n)[0] == '~'
  {
  }

  /** f gives shapes for names, g formulae with these shapes. */
  ghost predicate Gives(f: map<string, Shape>, g: map<string, Item>, known: seq<string>, renameCi: bool)
  {
    forall name | name in g :: name in f && Stored(g[name].e, g[name].head, known, renameCi) == f[name]
  }

  lemma {:induction false} SameIsPlain(a: Item, b: Item, known: seq<string>, renameCi: bool)
    requires SameFormula(a, b, known, known, renameCi) && PlainTags(b.e)
    ensures PlainTags(a.e)
    decreases a.e
  {
    forall i | 0 <= i < |a.e.kids|
      ensures PlainTags(a.e.kids[i])
    {
      SameIsPlain(Kid(a, i), Kid(b, i), known, renameCi);
    }
  }

  lemma {:induction false} ReplacedArePut(q: Item, x: Item, f: map<string, Shape>, g: map<string, Item>, rd: Reading,
                                          known: seq<string>)
    requires PlainTags(q.e) && PlainTags(x.e) && Gives(f, g, known, rd.renameCi) && Replaces(q, x, g, rd, known)
    ensures Puts(q.e, q.head, Stored(x.e, x.head, known, rd.renameCi), f, rd)
    decreases q.e
  {
    hide SameElement, Translated, InLimits, SameFormula, Stored;
    var s := Stored(x.e, x.head, known, rd.renameCi);
    if q.e.IsVar() {
      var name := q.e.VarName();
      if name != "" {
        SameIsPlain(g[name], x, known, rd.renameCi);
        StoredIsFormula(g[name], x, known, known, rd.renameCi);
      }
    } else if q.e.IsRange() {
      InLimitsIsNumber(q, x, rd, known);
    } else {
      TranslationIsElement(q, x, rd.known, known, rd.renameCi);
      StoredSymbol(x, known, rd.renameCi);
      forall i | 0 <= i < |q.e.kids|
        ensures Puts(q.e.kids[i], q.e.tag == "apply" && i == 0, s.kids[i], f, rd)
      {
        KidStored(x, known, rd.renameCi, i);
        ReplacedArePut(Kid(q, i), Kid(x, i), f, g, rd, known);
      }
    }
  }

  lemma StoredSymbol(x: Item, known: seq<string>, renameCi: bool)
    ensures var s := Stored(x.e, x.head, known, renameCi);
            s.sym == Fixed(Translated(x, known, renameCi)) && |s.kids| == |x.e.kids|
  {
  }

  /** g has a formula for each name whose shape is that of one of the items. */
  ghost predicate GivesAll(f: map<string, Shape>, g: map<string, Item>, items: seq<Item>, known: seq<string>,
                           renameCi: bool)
  {
    && Gives(f, g, known, renameCi) && (forall name | name in g :: PlainTags(g[name].e))
    && forall name, y | name in f && y in items && Stored(y.e, y.head, known, renameCi) == f[name] :: name in g
  }

  lemma {:induction false} PutAreReplaced(q: Item, x: Item, f: map<string, Shape>, g: map<string, Item>,
                                          items: seq<Item>, rd: Reading, known: seq<string>)
    requires PlainTags(q.e) && PlainTags(x.e) && GivesAll(f, g, items, known, rd.renameCi)
    requires Puts(q.e, q.head, Stored(x.e, x.head, known, rd.renameCi), f, rd)
    requires forall y | y in Flat(x.e, x.head) :: y in items
    ensures Replaces(q, x, g, rd, known)
    decreases q.e
  {
    hide SameElement, Translated, InLimits, SameFormula, Stored, Flat, FlatAll;
    var s := Stored(x.e, x.head, known, rd.renameCi);
    assert x in items by { assert Flat(x.e, x.head)[0] == x; }
    if q.e.IsVar() {
      var name := q.e.VarName();
      if name != "" {
        StoredIsFormula(g[name], x, known, known, rd.renameCi);
      }
    } else if q.e.IsRange() {
      InLimitsIsNumber(q, x, rd, known);
    } else {
      TranslationIsElement(q, x, rd.known, known, rd.renameCi);
      StoredSymbol(x, known, rd.renameCi);
      forall i | 0 <= i < |q.e.kids|
        ensures Replaces(Kid(q, i), Kid(x, i), g, rd, known)
      {
        KidStored(x, known, rd.renameCi, i);
        KidFlat(x, i);
        PutAreReplaced(Kid(q, i), Kid(x, i), f, g, items, rd, known);
      }
    }
  }

  lemma KidFlat(x: Item, i: nat)
    requires i < |x.e.kids|
    ensures forall y | y in Flat(Kid(x, i).e, Kid(x, i).head) :: y in Flat(x.e, x.head)
  {
    KidFlatAll(x.e.kids, x.e.tag == "apply", i);
  }

  lemma {:induction false} KidFlatAll(es: seq<Expr>, head: bool, i: nat)
    requires i < |es|
    ensures forall y | y in Flat(es[i], head && i == 0) :: y in FlatAll(es, head)
    decreases |es|
  {
    if i > 0 {
      KidFlatAll(es[1..], false, i - 1);
    }
  }

  lemma {:induction false} PlainItems(x: Item)
    requires PlainTags(x.e)
    ensures forall y | y in Flat(x.e, x.head) :: PlainTags(y.e)
    decreases x.e, 0
  {
    PlainItemsAll(x.e.kids, x.e.tag == "apply");
  }

  lemma {:induction false} PlainItemsAll(es: seq<Expr>, head: bool)
    requires forall i | 0 <= i < |es| :: PlainTags(es[i])
    ensures forall y | y in FlatAll(es, head) :: PlainTags(y.e)
    decreases es, 1
  {
    if es != [] {
      PlainItems(Item(es[0], head));
      PlainItemsAll(es[1..], false);
    }
  }

  /** The instances of a query in terms of meanings are those in terms of tags, texts and children. */
  lemma InstancesAreOfFormulae(q: Item, x: Item, rd: Reading, known: seq<string>)
    requires PlainTags(q.e) && PlainTags(x.e)
    ensures IsInstance(q.e, q.head, Stored(x.e, x.head, known, rd.renameCi), rd) <==> IsInstanceOf(q, x, rd, known)
  {
    hide Puts, Replaces, Stored, Flat, PlainTags;
    var s, items := Stored(x.e, x.head, known, rd.renameCi), Flat(x.e, x.head);
    PlainItems(x);
    forall f: map<string, Shape> | Puts(q.e, q.head, s, f, rd)
      ensures exists g :: Replaces(q, x, g, rd, known)
    {
      var g := FormulaeFor(f, items, known, rd.renameCi);
      PutAreReplaced(q, x, f, g, items, rd, known);
    }
    forall g: map<string, Item> | Replaces(q, x, g, rd, known)
      ensures IsInstance(q.e, q.head, s, rd)
    {
      var f := map name | name in g :: Stored(g[name].e, g[name].head, known, rd.renameCi);
      ReplacedArePut(q, x, f, g, rd, known);
    }
  }

  lemma FormulaeFor(f: map<string, Shape>, items: seq<Item>, known: seq<string>, renameCi: bool)
      returns (g: map<string, Item>)
    requires forall y | y in items :: PlainTags(y.e)
    ensures GivesAll(f, g, items, known, renameCi)
  {
    hide Stored, PlainTags;
    g := map name | name in f && exists y :: y in items && Stored(y.e, y.head, known, renameCi) == f[name]
         :: var y :| y in items && Stored(y.e, y.head, known, renameCi) == f[name]; y;
  }

  // ---------------------------------------------------------------- codes

  /** Some exchange of short names, one for one, makes a and b the same. */
  ghost predicate SameButNames(a: Item, b: Item, renameCi: bool)
  {
    exists f: map<string, string> :: Injective(f) && Alike(a, b, (x, y) => SameUnder(x, y, f, renameCi))
  }

  /** f0 exchanges the meanings of the names that f exchanges. */
  ghost predicate Exchanges(f0: map<string, string>, f: map<string, string>)
  {
    forall t | t in f :: "ci#" + t in f0 && f0["ci#" + t] == "ci#" + f[t]
  }

  lemma SymbolUnder(a: Item, b: Item, f0: map<string, string>, f: map<string, string>, renameCi: bool)
    requires '#' !in a.e.tag && '#' !in b.e.tag
    requires Exchanges(f0, f) && forall t, u | "ci#" + t in f0 && f0["ci#" + t] == "ci#" + u :: t in f
    requires IsShortName(a, renameCi) ==> "ci#" + a.e.text in f0
    ensures SymOf(b, renameCi) == RenameSym(SymOf(a, renameCi), f0) <==> SameUnder(a, b, f, renameCi)
  {
    hide IsRenamed, SameText;
    RenamedIff(a, renameCi);
    RenamedIff(b, renameCi);
    MeaningIsText(a, b);
    ShortMeaning(a, renameCi);
    ShortMeaning(b, renameCi);
    assert ("ci#" + b.e.text)[3..] == b.e.text;
    if a.e.text in f {
      assert ("ci#" + f[a.e.text])[3..] == f[a.e.text];
    }
  }

  lemma KidShape(it: Item, renameCi: bool, i: nat)
    requires i < |it.e.kids|
    ensures |ShapeOf(it.e, it.head, renameCi).kids| == |it.e.kids|
    ensures ShapeOf(it.e, it.head, renameCi).kids[i] == ShapeOf(Kid(it, i).e, Kid(it, i).head, renameCi)
  {
    ShapeAt(it.e.kids, it.e.tag == "apply", renameCi, i);
  }

  lemma {:induction false} ShapeAt(es: seq<Expr>, head: bool, renameCi: bool, i: nat)
    requires i < |es|
    ensures ShapesOf(es, head, renameCi)[i] == ShapeOf(es[i], head && i == 0, renameCi)
    decreases |es|
  {
    hide ShapeOf;
    if i > 0 {
      ShapeAt(es[1..], false, renameCi, i - 1);
    }
  }

  lemma {:induction false} RenameAt(ss: seq<Shape>, f: map<string, string>, i: nat)
    requires i < |ss|
    ensures RenameAll(ss, f)[i] == Rename(ss[i], f)
    decreases |ss|
  {
    hide Rename;
    if i > 0 {
      RenameAt(ss[1..], f, i - 1);
    }
  }

  lemma {:induction false} ShapeUnder(a: Item, b: Item, f0: map<string, string>, f: map<string, string>, renameCi: bool)
    requires PlainTags(a.e) && PlainTags(b.e)
    requires Exchanges(f0, f) && forall t, u | "ci#" + t in f0 && f0["ci#" + t] == "ci#" + u :: t in f
    requires forall y | y in Flat(a.e, a.head) && IsShortName(y, renameCi) :: "ci#" + y.e.text in f0
    ensures ShapeOf(b.e, b.head, renameCi) == Rename(ShapeOf(a.e, a.head, renameCi), f0)
       <==> Alike(a, b, (x, y) => SameUnder(x, y, f, renameCi))
    decreases a.e
  {
    hide SymOf, SameUnder, RenameSym, Flat, FlatAll, Exchanges;
    assert a in Flat(a.e, a.head) by { assert Flat(a.e, a.head)[0] == a; }
    SymbolUnder(a, b, f0, f, renameCi);
    ShapeSymbol(a, renameCi);
    ShapeSymbol(b, renameCi);
    var s, t := Rename(ShapeOf(a.e, a.head, renameCi), f0), ShapeOf(b.e, b.head, renameCi);
    if |a.e.kids| == |b.e.kids| {
      forall i | 0 <= i < |a.e.kids|
        ensures s.kids[i] == t.kids[i] <==> Alike(Kid(a, i), Kid(b, i), (x, y) => SameUnder(x, y, f, renameCi))
      {
        KidShape(a, renameCi, i);
        KidShape(b, renameCi, i);
        RenameAt(ShapeOf(a.e, a.head, renameCi).kids, f0, i);
        KidFlat(a, i);
        ShapeUnder(Kid(a, i), Kid(b, i), f0, f, renameCi);
      }
      assert s.kids == t.kids <==> forall i | 0 <= i < |a.e.kids| :: s.kids[i] == t.kids[i];
    }
  }

  lemma ShapeSymbol(it: Item, renameCi: bool)
    ensures var s := ShapeOf(it.e, it.head, renameCi); s.sym == SymOf(it, renameCi) && |s.kids| == |it.e.kids|
  {
  }

  lemma NamesAreShort(a: Item, renameCi: bool, name: string)
    ensures name in NamesIn(Marks(ShapeOf(a.e, a.head, renameCi)))
       <==> exists y :: y in Flat(a.e, a.head) && IsShortName(y, renameCi) && name == "ci#" + y.e.text
  {
    hide Flat, Marks, ShapeOf, IsRenamed;
    MarksOfFlat(a.e, a.head, renameCi);
    var items, ms := Flat(a.e, a.head), MarksOf(Flat(a.e, a.head), renameCi);
    forall i | 0 <= i < |items|
      ensures ms[i].sym.Name? <==> IsShortName(items[i], renameCi)
      ensures ms[i].sym.Name? ==> ms[i].sym.name == "ci#" + items[i].e.text
    {
      RenamedIff(items[i], renameCi);
    }
  }

  /** Shapes are equal up to their names exactly when the formulae are. */
  lemma AlphaIsExchange(a: Item, b: Item, renameCi: bool)
    requires PlainTags(a.e) && PlainTags(b.e)
    ensures AlphaEquivalent(ShapeOf(a.e, a.head, renameCi), ShapeOf(b.e, b.head, renameCi))
       <==> SameButNames(a, b, renameCi)
  {
    hide Flat, Marks, ShapeOf, NamesIn, Rename, PlainTags, Alike;
    var s, t := ShapeOf(a.e, a.head, renameCi), ShapeOf(b.e, b.head, renameCi);
    forall y | y in Flat(a.e, a.head) && IsShortName(y, renameCi)
      ensures "ci#" + y.e.text in NamesIn(Marks(s))
    {
      NamesAreShort(a, renameCi, "ci#" + y.e.text);
    }
    if AlphaEquivalent(s, t) {
      var f0: map<string, string> :| Injective(f0) && NamesIn(Marks(s)) <= f0.Keys && t == Rename(s, f0);
      var f := TextsOf(f0);
      ShapeUnder(a, b, f0, f, renameCi);
    }
    if SameButNames(a, b, renameCi) {
      var f: map<string, string> :| Injective(f) && Alike(a, b, (x, y) => SameUnder(x, y, f, renameCi));
      var f0 := MeaningsOf(f);
      AlikeNames(a, b, f, renameCi);
      forall name | name in NamesIn(Marks(s))
        ensures name in f0
      {
        NamesAreShort(a, renameCi, name);
      }
      ShapeUnder(a, b, f0, f, renameCi);
    }
  }

  lemma TextsOf(f0: map<string, string>) returns (f: map<string, string>)
    requires Injective(f0)
    ensures Injective(f) && Exchanges(f0, f) && forall t, u | "ci#" + t in f0 && f0["ci#" + t] == "ci#" + u :: t in f
  {
    var ts := set k | k in f0 && "ci#" <= k && "ci#" <= f0[k] :: k[3..];
    forall t | t in ts
      ensures "ci#" + t in f0 && "ci#" <= f0["ci#" + t]
    {
      var k :| k in f0 && "ci#" <= k && "ci#" <= f0[k] && t == k[3..];
      assert k == "ci#" + t;
    }
    f := map t | t in ts :: f0["ci#" + t][3..];
    TextsInjective(f0, f);
    forall t, u | "ci#" + t in f0 && f0["ci#" + t] == "ci#" + u
      ensures t in f
    {
      assert ("ci#" + t)[3..] == t;
    }
  }

  lemma TextsInjective(f0: map<string, string>, f: map<string, string>)
    requires Injective(f0) && forall t | t in f ::
      "ci#" + t in f0 && "ci#" <= f0["ci#" + t] && f[t] == f0["ci#" + t][3..]
    ensures Injective(f) && Exchanges(f0, f)
  {
    forall t | t in f
      ensures f0["ci#" + t] == "ci#" + f[t]
    {
    }
    forall t, u | t in f && u in f && f[t] == f[u]
      ensures t == u
    {
      assert f0["ci#" + t] == f0["ci#" + u];
      assert ("ci#" + t)[3..] == t && ("ci#" + u)[3..] == u;
    }
  }

  lemma MeaningsOf(f: map<string, string>) returns (f0: map<string, string>)
    requires Injective(f)
    ensures Injective(f0) && Exchanges(f0, f) && forall t, u | "ci#" + t in f0 && f0["ci#" + t] == "ci#" + u :: t in f
  {
    forall t: string
      ensures ("ci#" + t)[3..] == t
    {
    }
    f0 := map t | t in f :: "ci#" + t := "ci#" + f[t];
  }

  lemma {:induction false} AlikeNames(a: Item, b: Item, f: map<string, string>, renameCi: bool)
    requires Alike(a, b, (x, y) => SameUnder(x, y, f, renameCi))
    ensures forall y | y in Flat(a.e, a.head) && IsShortName(y, renameCi) :: y.e.text in f
    decreases a.e
  {
    forall y | y in Flat(a.e, a.head) && IsShortName(y, renameCi)
      ensures y.e.text in f
    {
      if y != a {
        var i := InKid(a.e.kids, a.e.tag == "apply", y);
        AlikeNames(Kid(a, i), Kid(b, i), f, renameCi);
      }
    }
  }

  lemma {:induction false} InKid(es: seq<Expr>, head: bool, y: Item) returns (i: nat)
    requires y in FlatAll(es, head)
    ensures i < |es| && y in Flat(es[i], head && i == 0)
    decreases |es|
  {
    if y in Flat(es[0], head) {
      i := 0;
    } else {
      i := InKid(es[1..], false, y);
      i := i + 1;
    }
  }

  lemma {:induction false} SameWithoutNames(a: Item, b: Item, f: map<string, string>)
    ensures Alike(a, b, (x, y) => SameUnder(x, y, f, false)) <==> SameFormula(a, b, [], [], false)
    decreases a.e
  {
    if |a.e.kids| == |b.e.kids| {
      forall i | 0 <= i < |a.e.kids|
        ensures Alike(Kid(a, i), Kid(b, i), (x, y) => SameUnder(x, y, f, false))
           <==> SameFormula(Kid(a, i), Kid(b, i), [], [], false)
      {
        SameWithoutNames(Kid(a, i), Kid(b, i), f);
      }
    }
  }

  /** Without renaming nothing may differ. */
  lemma NothingExchanged(a: Item, b: Item)
    ensures SameButNames(a, b, false) <==> SameFormula(a, b, [], [], false)
  {
    hide Alike;
    forall f: map<string, string> | Injective(f)
      ensures Alike(a, b, (x, y) => SameUnder(x, y, f, false)) <==> SameFormula(a, b, [], [], false)
    {
      SameWithoutNames(a, b, f);
    }
    var none: map<string, string> := map[];
    assert Injective(none);
    assert Alike(a, b, (x, y) => SameUnder(x, y, none, false)) <==> SameFormula(a, b, [], [], false);
  }

  /** Two formulae encoded one after the other get the same code exactly when they differ in short names
      at most, and these can be exchanged one for one; without renaming, when they are the same. */
  method EncodeBoth(dictionary: IdDictionary, renameCi: bool, a: Item, b: Item) returns (same: bool)
    requires dictionary.Valid()
    requires Ground(Flat(a.e, a.head)) && Ground(Flat(b.e, b.head))
    requires !SomeTooWide(Flat(a.e, a.head)) && !SomeTooWide(Flat(b.e, b.head))
    modifies dictionary
    ensures dictionary.Valid()
    ensures IdsFit(dictionary.keys) ==>
              same == AlphaEquivalent(ShapeOf(a.e, a.head, renameCi), ShapeOf(b.e, b.head, renameCi))
    ensures IdsFit(dictionary.keys) && PlainTags(a.e) && PlainTags(b.e) ==>
              && same == SameButNames(a, b, renameCi)
              && (!renameCi ==> same == SameFormula(a, b, [], [], false))
  {
    hide Encoded, SomeTooWide, SomeUnknown, Ground, ShapeOf, AlphaEquivalent, IdsFit, Flat, NumberOf, AddAll, VarNames,
         Alias, PlainTags, SameButNames, SameFormula;
    var first := new ExpressionEncoder(dictionary, true);
    var _, codeA := first.Encode(renameCi, a);
    ghost var keysA := dictionary.keys;
    var second := new ExpressionEncoder(dictionary, true);
    var _, codeB := second.Encode(renameCi, b);
    same := codeA == codeB;
    if IdsFit(dictionary.keys) {
      EncodingIsAlpha(a, b, codeA, codeB, old(dictionary.keys), keysA, first.known, second.known, keysA,
                      dictionary.keys, AddAll([], VarNames(Flat(a.e, a.head))), AddAll([], VarNames(Flat(b.e, b.head))),
                      renameCi);
      if PlainTags(a.e) && PlainTags(b.e) {
        AlphaIsExchange(a, b, renameCi);
        NothingExchanged(a, b);
      }
    }
  }
}
