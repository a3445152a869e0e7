/** Encodings identify exactly the expressions that differ in the names of renamed identifiers. */
module AlphaEncoding {
  import opened Tokens
  import opened Expressions
  import opened CiRenaming
  import opened ExpressionEncoders
  import opened IdDictionaries
  import opened Numberings
  import opened SchemaHashes
  import opened Wrappers

  // ---------------------------------------------------------------- aliases

  lemma {:induction false} DecimalDigits(n: nat)
    ensures forall i | 0 <= i < |Decimal(n)| :: IsDigit(Decimal(n)[i])
    decreases n
  {
    if n >= 10 {
      DecimalDigits(n / 10);
    }
  }

  lemma AliasOfTen()
    ensures Alias(1) == "~1" && Alias(10) == "~10" && Alias(205) == "~205"
  {
    assert Decimal(1) == "1" && Decimal(2) == "2";
    assert Decimal(20) == Decimal(2) + "0";
  }

  /** Aliases are distinct, and no meaning is an alias: it contains a '#'. */
  lemma AliasesAreNew(m: nat, n: nat, e: Expr)
    ensures Alias(m) == Alias(n) <==> m == n
    ensures Alias(m) != e.Meaning()
  {
    DecimalDigits(m);
    if Alias(m) == Alias(n) {
      assert Alias(m)[1..] == Decimal(m) && Alias(n)[1..] == Decimal(n);
      ReadsBack(m, "");
      ReadsBack(n, "");
      assert Decimal(m) + "" == Decimal(m) && Decimal(n) + "" == Decimal(n);
    }
    var k := if e.tag == "mtext" then 5 else |e.tag|;
    assert e.Meaning()[k] == '#';
    assert forall i | 0 <= i < |Alias(m)| :: Alias(m)[i] == (if i == 0 then '~' else Decimal(m)[i - 1]) != '#';
  }

  lemma SameTranslation(a: Item, b: Item, knownA: seq<string>, knownB: seq<string>, renameCi: bool)
    ensures Translated(a, knownA, renameCi) == Translated(b, knownB, renameCi) <==>
            var (x, y) := (SymOf(a, renameCi), SymOf(b, renameCi));
            if x.Fixed? then x == y else y.Name? && NumberOf(knownA, x.name) == NumberOf(knownB, y.name)
  {
    hide NumberOf, IsRenamed, Alias;
    AliasesAreNew(NumberOf(knownA, a.e.Meaning()), NumberOf(knownB, b.e.Meaning()), a.e);
    AliasesAreNew(NumberOf(knownA, a.e.Meaning()), NumberOf(knownB, b.e.Meaning()), b.e);
    AliasesAreNew(NumberOf(knownB, b.e.Meaning()), NumberOf(knownA, a.e.Meaning()), a.e);
  }

  // ---------------------------------------------------------------- ground expressions

  ghost predicate Ground(items: seq<Item>)
  {
    forall i | 0 <= i < |items| :: IsConstant(items[i])
  }

  lemma {:induction false} CiNamesAreNames(items: seq<Item>, renameCi: bool)
    requires Ground(items)
    ensures CiNames(items, renameCi) == Names(MarksOf(items, renameCi))
    decreases |items|
  {
    hide IsRenamed;
    if items != [] {
      assert forall i | 0 <= i < |items| - 1 :: Init(items)[i] == items[i];
      CiNamesAreNames(Init(items), renameCi);
      assert Init(MarksOf(items, renameCi)) == MarksOf(Init(items), renameCi);
    }
  }

  /** Equal numbers at equal places. */
  ghost predicate SameNumbering(a: seq<Mark>, b: seq<Mark>)
    requires SameFrame(a, b)
  {
    forall i | 0 <= i < |a| && a[i].sym.Name? ::
      NumberOf(AddAll([], Names(a)), a[i].sym.name) == NumberOf(AddAll([], Names(b)), b[i].sym.name)
  }

  lemma NumberingIsNumbers(a: seq<Mark>, b: seq<Mark>)
    requires SameFrame(a, b)
    ensures SameNumbering(a, b) <==> SameNumbers(Names(a), Names(b))
  {
    hide Names, NumberOf, AddAll;
    SameFrameNames(a, b);
    if SameNumbering(a, b) {
      forall k | 0 <= k < |Names(a)|
        ensures NumberOf(AddAll([], Names(a)), Names(a)[k]) == NumberOf(AddAll([], Names(b)), Names(b)[k])
      {
        var i := SomeName(a, k);
        NameAt(b, i);
        assert SameFrame(a[..i], b[..i]);
        SameFrameNames(a[..i], b[..i]);
      }
    }
    if SameNumbers(Names(a), Names(b)) {
      forall i | 0 <= i < |a| && a[i].sym.Name?
        ensures NumberOf(AddAll([], Names(a)), a[i].sym.name) == NumberOf(AddAll([], Names(b)), b[i].sym.name)
      {
        NameAt(a, i);
        NameAt(b, i);
        assert SameFrame(a[..i], b[..i]);
        SameFrameNames(a[..i], b[..i]);
      }
    }
  }

  /** All ids the dictionary hands out fit into a token. */
  predicate IdsFit(keys: seq<string>) {
    CONSTANT_ID_MIN + |keys| < 0x100_0000
  }

  lemma SameToken(a: Item, b: Item, knownA: seq<string>, knownB: seq<string>, keys: seq<string>, renameCi: bool)
    requires IsConstant(a) && IsConstant(b) && !TooWide(a) && !TooWide(b) && IdsFit(keys)
    requires Translated(a, knownA, renameCi) in keys
    ensures TokenFor(a, [], knownA, keys, [], renameCi) == TokenFor(b, [], knownB, keys, [], renameCi) <==>
            |a.e.kids| == |b.e.kids| && Translated(a, knownA, renameCi) == Translated(b, knownB, renameCi)
  {
    hide Translated;
    var x, y := Translated(a, knownA, renameCi), Translated(b, knownB, renameCi);
    if NumberOf(keys, x) == NumberOf(keys, y) {
      NumberInjective(keys, x, y);
    }
    var m, n := NumberOf(keys, x), NumberOf(keys, y);
    hide NumberOf;
    assert ConstantId(m) == (if m == 0 then 0 else CONSTANT_ID_MIN + m)
           && ConstantId(n) == if n == 0 then 0 else CONSTANT_ID_MIN + n;
  }

  /** The tokens of a ground expression do not depend on its context, nor on later dictionary entries. */
  lemma GroundToken(items: seq<Item>, tokens: seq<Token>, known0: seq<string>, keys0: seq<string>, known: seq<string>,
                    keys: seq<string>, vars: seq<string>, renameCi: bool, later: seq<string>, i: nat)
    requires Encoded(items, tokens, known0, keys0, known, keys, vars, renameCi, true) && Ground(items) && i < |items|
    requires keys <= later && NoRepeats(later)
    ensures |tokens| == |items| && !TooWide(items[i]) && Translated(items[i], known, renameCi) in later
    ensures tokens[i] == TokenFor(items[i], [], known, later, [], renameCi)
  {
    hide NumberOf, AddAll, Translated, CiNames, Entries, VarNames;
    EncodedCovers(items, tokens, known0, keys0, known, keys, vars, renameCi, true);
    NumberStays(keys, later, Translated(items[i], known, renameCi));
  }

  /** Two ground expressions, encoded by fresh harvest encoders over one dictionary, get the same
      code exactly when they are equal up to an exchange of names. */
  lemma EncodingIsAlpha(a: Item, b: Item, tokensA: seq<Token>, tokensB: seq<Token>, keysA0: seq<string>,
                        keysB0: seq<string>, knownA: seq<string>, knownB: seq<string>, keysA: seq<string>,
                        keysB: seq<string>, varsA: seq<string>, varsB: seq<string>, renameCi: bool)
    requires var items := Flat(a.e, a.head);
             Ground(items) && Encoded(items, tokensA, [], keysA0, knownA, keysA, varsA, renameCi, true)
    requires var items := Flat(b.e, b.head);
             Ground(items) && Encoded(items, tokensB, [], keysB0, knownB, keysB, varsB, renameCi, true)
    requires keysA <= keysB && IdsFit(keysB)
    ensures tokensA == tokensB <==> AlphaEquivalent(ShapeOf(a.e, a.head, renameCi), ShapeOf(b.e, b.head, renameCi))
  {
    hide *;
    var itemsA, itemsB := Flat(a.e, a.head), Flat(b.e, b.head);
    var ma, mb := MarksOf(itemsA, renameCi), MarksOf(itemsB, renameCi);
    MarksOfFlat(a.e, a.head, renameCi);
    MarksOfFlat(b.e, b.head, renameCi);
    AlphaIsPattern(ShapeOf(a.e, a.head, renameCi), ShapeOf(b.e, b.head, renameCi));
    KnownAre(itemsA, tokensA, keysA0, knownA, keysA, varsA, renameCi);
    KnownAre(itemsB, tokensB, keysB0, knownB, keysB, varsB, renameCi);
    TokensAreNumbering(itemsA, itemsB, tokensA, tokensB, keysA0, keysB0, knownA, knownB, keysA, keysB, varsA, varsB,
                       renameCi);
    if SameFrame(ma, mb) {
      NumberingIsNumbers(ma, mb);
      NumbersArePattern(Names(ma), Names(mb));
    }
  }

  lemma KnownAre(items: seq<Item>, tokens: seq<Token>, keys0: seq<string>, known: seq<string>, keys: seq<string>,
                 vars: seq<string>, renameCi: bool)
    requires Ground(items) && Encoded(items, tokens, [], keys0, known, keys, vars, renameCi, true)
    ensures known == AddAll([], Names(MarksOf(items, renameCi))) && |tokens| == |items| && NoRepeats(keys)
  {
    hide AddAll, NumberOf, Names, CiNames, IsRenamed;
    CiNamesAreNames(items, renameCi);
    EncodedCovers(items, tokens, [], keys0, known, keys, vars, renameCi, true);
  }

  lemma TokensAreNumbering(itemsA: seq<Item>, itemsB: seq<Item>, tokensA: seq<Token>, tokensB: seq<Token>,
                           keysA0: seq<string>, keysB0: seq<string>,
                           knownA: seq<string>, knownB: seq<string>, keysA: seq<string>, keysB: seq<string>,
                           varsA: seq<string>, varsB: seq<string>, renameCi: bool)
    requires Ground(itemsA) && Encoded(itemsA, tokensA, [], keysA0, knownA, keysA, varsA, renameCi, true)
    requires Ground(itemsB) && Encoded(itemsB, tokensB, [], keysB0, knownB, keysB, varsB, renameCi, true)
    requires keysA <= keysB && NoRepeats(keysB) && IdsFit(keysB)
    requires |tokensA| == |itemsA| && |tokensB| == |itemsB|
    requires knownA == AddAll([], Names(MarksOf(itemsA, renameCi)))
             && knownB == AddAll([], Names(MarksOf(itemsB, renameCi)))
    ensures var ma, mb := MarksOf(itemsA, renameCi), MarksOf(itemsB, renameCi);
            tokensA == tokensB <==> SameFrame(ma, mb) && SameNumbering(ma, mb)
  {
    hide AddAll, NumberOf, Names, SymOf, Encoded, Ground, Translated, TokenFor, IdsFit;
    var ma, mb := MarksOf(itemsA, renameCi), MarksOf(itemsB, renameCi);
    if |itemsA| == |itemsB| {
      forall i | 0 <= i < |itemsA|
        ensures tokensA[i] == tokensB[i] <==>
                && ma[i].arity == mb[i].arity
                && if ma[i].sym.Fixed? then ma[i].sym == mb[i].sym
                   else mb[i].sym.Name? && NumberOf(knownA, ma[i].sym.name) == NumberOf(knownB, mb[i].sym.name)
      {
        GroundAt(itemsA, i);
        GroundAt(itemsB, i);
        GroundToken(itemsA, tokensA, [], keysA0, knownA, keysA, varsA, renameCi, keysB, i);
        GroundToken(itemsB, tokensB, [], keysB0, knownB, keysB, varsB, renameCi, keysB, i);
        SameToken(itemsA[i], itemsB[i], knownA, knownB, keysB, renameCi);
        SameTranslation(itemsA[i], itemsB[i], knownA, knownB, renameCi);
      }
    }
  }

  lemma GroundAt(items: seq<Item>, i: nat)
    requires Ground(items) && i < |items|
    ensures IsConstant(items[i])
  {
  }
}
