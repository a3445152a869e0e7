/** The encoders of harvested expressions and of queries. */
module ExpressionEncoders {
  import opened Tokens
  import opened Expressions
  import opened CiRenaming
  import opened Numberings
  import opened IdDictionaries
  import opened SchemaHashes
  import opened Wrappers

  const HVAR_ID_MIN := 1
  const ENC_TOK_MAX_ARITY := 255

  // ---------------------------------------------------------------- what is encoded

  predicate IsConstant(it: Item) {
    !it.e.IsVar() && !it.e.IsRange()
  }

  predicate TooWide(it: Item) {
    IsConstant(it) && |it.e.kids| > ENC_TOK_MAX_ARITY
  }

  /** The renamed identifiers among the items, in order. */
  function CiNames(items: seq<Item>, renameCi: bool): seq<string>
    decreases |items|
  {
    if items == [] then []
    else
      CiNames(Init(items), renameCi)
      + if IsConstant(Last(items)) && IsRenamed(Last(items), renameCi) then [Last(items).e.Meaning()] else []
  }

  /** The n-th renamed identifier stands in the dictionary as "~n". */
  function Alias(n: nat): string {
    "~" + Decimal(n)
  }

  function Translated(it: Item, known: seq<string>, renameCi: bool): string {
    if IsRenamed(it, renameCi) then Alias(NumberOf(known, it.e.Meaning())) else it.e.Meaning()
  }

  /** The dictionary entries the items need, in order. */
  function Entries(items: seq<Item>, known: seq<string>, renameCi: bool): seq<string>
    decreases |items|
  {
    if items == [] then []
    else
      Entries(Init(items), known, renameCi)
      + if IsConstant(Last(items)) then [Translated(Last(items), known, renameCi)] else []
  }

  function VarNames(items: seq<Item>): seq<string>
    decreases |items|
  {
    if items == [] then []
    else
      VarNames(Init(items))
      + if Last(items).e.IsVar() && Last(items).e.VarName() != "" then [Last(items).e.VarName()] else []
  }

  function AnonVars(items: seq<Item>): nat
    decreases |items|
  {
    if items == [] then 0
    else AnonVars(Init(items)) + if Last(items).e.IsVar() && Last(items).e.VarName() == "" then 1 else 0
  }

  function Ranges(items: seq<Item>): nat
    decreases |items|
  {
    if items == [] then 0 else Ranges(Init(items)) + if Last(items).e.IsRange() then 1 else 0
  }

  /** Ids are stored in 24 bits. */
  function Id24(n: nat): MeaningId {
    n % 0x100_0000
  }

  function ConstantId(number: nat): MeaningId {
    if number == KEY_NOT_FOUND then KEY_NOT_FOUND else Id24(CONSTANT_ID_MIN + number)
  }

  /** The id belongs to a constant of the lookup table. */
  predicate IsConstantId(table: seq<string>, id: MeaningId) {
    CONSTANT_ID_MIN < id <= CONSTANT_ID_MIN + |table|
  }

  /** The meaning of the id of a constant. */
  function GetMeaning(table: seq<string>, id: MeaningId): string
    requires IsConstantId(table, id)
  {
    table[id - CONSTANT_ID_MIN - 1]
  }

  /** The token of one item, given what came before it. */
  function TokenFor(it: Item, before: seq<Item>, known: seq<string>, keys: seq<string>, vars: seq<string>,
                    renameCi: bool): Token
    requires !TooWide(it)
  {
    if it.e.IsVar() then
      Token(Id24(if it.e.VarName() == "" then ANON_HVAR_ID_MIN + AnonVars(before)
                 else HVAR_ID_MIN + NumberOf(vars, it.e.VarName())), 1)
    else if it.e.IsRange() then
      Token(Id24(RANGE_ID_MIN + Ranges(before)), 1)
    else
      Token(ConstantId(NumberOf(keys, Translated(it, known, renameCi))), |it.e.kids|)
  }

  ghost predicate Encodes(tokens: seq<Token>, items: seq<Item>, known: seq<string>, keys: seq<string>,
                          vars: seq<string>, renameCi: bool)
  {
    && |tokens| == |items|
    && forall i | 0 <= i < |items| ::
         !TooWide(items[i]) && tokens[i] == TokenFor(items[i], items[..i], known, keys, vars, renameCi)
  }

  ghost predicate SomeTooWide(items: seq<Item>)
  {
    exists i | 0 <= i < |items| :: TooWide(items[i])
  }

  /** The items that an encoder gets to: those before the first one that is too wide. */
  ghost function BeforeWide(items: seq<Item>): (r: seq<Item>)
    ensures r <= items && forall i | 0 <= i < |r| :: !TooWide(r[i])
    decreases |items|
  {
    if items == [] || TooWide(items[0]) then [] else [items[0]] + BeforeWide(items[1..])
  }

  lemma {:induction false} BeforeWideIs(done: seq<Item>, rest: seq<Item>)
    requires !SomeTooWide(done) && (rest == [] || TooWide(rest[0]))
    ensures BeforeWide(done + rest) == done
    decreases |done|
  {
    hide TooWide;
    if done == [] {
      assert done + rest == rest;
    } else {
      assert (done + rest)[1..] == done[1..] + rest;
      assert !SomeTooWide(done[1..]) by { assert forall i | 0 <= i < |done| - 1 :: done[1..][i] == done[i + 1]; }
      BeforeWideIs(done[1..], rest);
    }
  }

  // ---------------------------------------------------------------- growing state

  /** All names, entries and variables of the items are known. */
  ghost predicate Covers(items: seq<Item>, known: seq<string>, keys: seq<string>, vars: seq<string>, renameCi: bool)
  {
    && NoRepeats(known) && NoRepeats(keys) && NoRepeats(vars)
    && (forall i | 0 <= i < |items| && IsConstant(items[i]) && IsRenamed(items[i], renameCi) ::
        items[i].e.Meaning() in known)
    && (forall i | 0 <= i < |items| && items[i].e.IsVar() && items[i].e.VarName() != "" :: items[i].e.VarName() in vars)
  }

  lemma TokenStays(it: Item, before: seq<Item>, known: seq<string>, known': seq<string>, keys: seq<string>,
                   keys': seq<string>, vars: seq<string>, vars': seq<string>, renameCi: bool)
    requires !TooWide(it) && Covers([it], known, keys, vars, renameCi)
    requires known <= known' && keys <= keys' && vars <= vars' && NoRepeats(known') && NoRepeats(keys')
             && NoRepeats(vars')
    requires keys' != keys ==> IsConstant(it) ==> Translated(it, known, renameCi) in keys
    ensures IsConstant(it) ==> Translated(it, known', renameCi) == Translated(it, known, renameCi)
    ensures TokenFor(it, before, known', keys', vars', renameCi) == TokenFor(it, before, known, keys, vars, renameCi)
  {
    hide NumberOf, IsRenamed, NoRepeats, AnonVars, Ranges;
    assert [it][0] == it;
    if it.e.IsVar() {
      if it.e.VarName() != "" {
        NumberStays(vars, vars', it.e.VarName());
      }
    } else if !it.e.IsRange() {
      if IsRenamed(it, renameCi) {
        NumberStays(known, known', it.e.Meaning());
      }
      if keys' != keys {
        NumberStays(keys, keys', Translated(it, known, renameCi));
      }
    }
  }

  /** The dictionary after the items have been encoded. */
  ghost function KeysAfter(keys0: seq<string>, items: seq<Item>, known: seq<string>, renameCi: bool,
                           harvesting: bool): seq<string> {
    if harvesting then AddAll(keys0, Entries(items, known, renameCi)) else keys0
  }

  /** The state and the tokens when the items have been encoded, starting from known0 and keys0. */
  ghost predicate Encoded(items: seq<Item>, tokens: seq<Token>, known0: seq<string>, keys0: seq<string>,
                          known: seq<string>, keys: seq<string>, vars: seq<string>, renameCi: bool, harvesting: bool)
  {
    && NoRepeats(known0) && NoRepeats(keys0)
    && known == AddAll(known0, CiNames(items, renameCi))
    && keys == KeysAfter(keys0, items, known, renameCi, harvesting)
    && vars == AddAll([], VarNames(items))
    && Encodes(tokens, items, known, keys, vars, renameCi)
  }

  lemma {:induction false} AllCovered(items: seq<Item>, renameCi: bool, i: nat)
    requires i < |items|
    ensures IsConstant(items[i]) && IsRenamed(items[i], renameCi) ==> items[i].e.Meaning() in CiNames(items, renameCi)
    ensures items[i].e.IsVar() && items[i].e.VarName() != "" ==> items[i].e.VarName() in VarNames(items)
    decreases |items|
  {
    hide IsRenamed;
    if i < |items| - 1 {
      AllCovered(Init(items), renameCi, i);
    }
  }

  lemma {:induction false} EntriesOf(items: seq<Item>, known: seq<string>, renameCi: bool, i: nat)
    requires i < |items| && IsConstant(items[i])
    ensures Translated(items[i], known, renameCi) in Entries(items, known, renameCi)
    decreases |items|
  {
    hide Translated;
    if i < |items| - 1 {
      EntriesOf(Init(items), known, renameCi, i);
    }
  }

  lemma {:induction false} EntriesStay(items: seq<Item>, known: seq<string>, known': seq<string>, renameCi: bool)
    requires known <= known' && NoRepeats(known')
    requires forall i | 0 <= i < |items| && IsConstant(items[i]) && IsRenamed(items[i], renameCi) ::
               items[i].e.Meaning() in known
    ensures Entries(items, known', renameCi) == Entries(items, known, renameCi)
    decreases |items|
  {
    hide IsRenamed, NumberOf, NoRepeats;
    if items != [] {
      assert forall i | 0 <= i < |items| - 1 :: Init(items)[i] == items[i];
      EntriesStay(Init(items), known, known', renameCi);
      if IsConstant(Last(items)) && IsRenamed(Last(items), renameCi) {
        NumberStays(known, known', Last(items).e.Meaning());
      }
    }
  }

  /** Whatever has been encoded is covered by the state. */
  lemma EncodedCovers(items: seq<Item>, tokens: seq<Token>, known0: seq<string>, keys0: seq<string>,
                      known: seq<string>, keys: seq<string>, vars: seq<string>, renameCi: bool, harvesting: bool)
    requires Encoded(items, tokens, known0, keys0, known, keys, vars, renameCi, harvesting)
    ensures known0 <= known && keys0 <= keys && Covers(items, known, keys, vars, renameCi)
    ensures harvesting ==> forall i | 0 <= i < |items| && IsConstant(items[i]) ::
              Translated(items[i], known, renameCi) in keys
  {
    hide IsRenamed, NumberOf, NoRepeats, Translated, Encodes, AddAll, CiNames, Entries, VarNames;
    AddAllKeeps(known0, CiNames(items, renameCi));
    AddAllKeeps(keys0, Entries(items, known, renameCi));
    NothingRepeats();
    AddAllKeeps([], VarNames(items));
    forall i | 0 <= i < |items|
      ensures IsConstant(items[i]) && IsRenamed(items[i], renameCi) ==> items[i].e.Meaning() in known
      ensures items[i].e.IsVar() && items[i].e.VarName() != "" ==> items[i].e.VarName() in vars
      ensures harvesting && IsConstant(items[i]) ==> Translated(items[i], known, renameCi) in keys
    {
      AllCovered(items, renameCi, i);
      if IsConstant(items[i]) {
        EntriesOf(items, known, renameCi, i);
      }
    }
  }

  lemma NothingRepeats()
    ensures NoRepeats<string>([])
  {
  }

  /** One more item. */
  lemma EncodedSnoc(items: seq<Item>, tokens: seq<Token>, known0: seq<string>, keys0: seq<string>, known: seq<string>,
                    keys: seq<string>, vars: seq<string>, renameCi: bool, harvesting: bool, it: Item,
                    known': seq<string>, keys': seq<string>, vars': seq<string>, tok: Token)
    requires Encoded(items, tokens, known0, keys0, known, keys, vars, renameCi, harvesting) && !TooWide(it)
    requires known' == AddAll(known, if IsConstant(it) && IsRenamed(it, renameCi) then [it.e.Meaning()] else [])
    requires keys' == AddAll(keys, if harvesting && IsConstant(it) then [Translated(it, known', renameCi)] else [])
    requires vars' == AddAll(vars, if it.e.IsVar() && it.e.VarName() != "" then [it.e.VarName()] else [])
    requires tok == TokenFor(it, items, known', keys', vars', renameCi)
    ensures Encoded(items + [it], tokens + [tok], known0, keys0, known', keys', vars', renameCi, harvesting)
  {
    hide IsRenamed, NumberOf, NoRepeats, Translated, Encodes, AddAll, CiNames, Entries, VarNames, TokenFor, Covers,
         TooWide;
    EncodedCovers(items, tokens, known0, keys0, known, keys, vars, renameCi, harvesting);
    StateSnoc(items, known0, keys0, known, keys, vars, renameCi, harvesting, it, known', keys', vars');
    TokensSnoc(items, tokens, known, keys, vars, renameCi, harvesting, it, known', keys', vars', tok);
  }

  lemma StateSnoc(items: seq<Item>, known0: seq<string>, keys0: seq<string>,
                  known: seq<string>, keys: seq<string>, vars: seq<string>, renameCi: bool, harvesting: bool, it: Item,
                  known': seq<string>, keys': seq<string>, vars': seq<string>)
    requires Covers(items, known, keys, vars, renameCi)
    requires known == AddAll(known0, CiNames(items, renameCi))
    requires keys == KeysAfter(keys0, items, known, renameCi, harvesting) && vars == AddAll([], VarNames(items))
    requires known' == AddAll(known, if IsConstant(it) && IsRenamed(it, renameCi) then [it.e.Meaning()] else [])
    requires keys' == AddAll(keys, if harvesting && IsConstant(it) then [Translated(it, known', renameCi)] else [])
    requires vars' == AddAll(vars, if it.e.IsVar() && it.e.VarName() != "" then [it.e.VarName()] else [])
    ensures known' == AddAll(known0, CiNames(items + [it], renameCi))
    ensures keys' == KeysAfter(keys0, items + [it], known', renameCi, harvesting)
    ensures vars' == AddAll([], VarNames(items + [it]))
  {
    hide IsRenamed, NumberOf, NoRepeats, Translated, AddAll;
    var all := items + [it];
    assert Init(all) == items && Last(all) == it;
    var ci := if IsConstant(it) && IsRenamed(it, renameCi) then [it.e.Meaning()] else [];
    AddAllParts(known0, CiNames(items, renameCi), ci);
    CoversGrows(items, known, keys, vars, renameCi, ci);
    EntriesStay(items, known, known', renameCi);
    AddAllParts(keys0, Entries(items, known, renameCi), if IsConstant(it) then [Translated(it, known', renameCi)]
                else []);
    AddAllParts([], VarNames(items), if it.e.IsVar() && it.e.VarName() != "" then [it.e.VarName()] else []);
    NoEntry(keys);
  }

  lemma NoEntry(keys: seq<string>)
    ensures AddAll(keys, []) == keys
  {
  }

  lemma CoversGrows(items: seq<Item>, known: seq<string>, keys: seq<string>, vars: seq<string>, renameCi: bool,
                    ci: seq<string>)
    requires Covers(items, known, keys, vars, renameCi)
    ensures known <= AddAll(known, ci) && NoRepeats(AddAll(known, ci))
    ensures forall i | 0 <= i < |items| && IsConstant(items[i]) && IsRenamed(items[i], renameCi) ::
              items[i].e.Meaning() in known
  {
    hide AddAll;
    AddAllKeeps(known, ci);
  }

  lemma TokensSnoc(items: seq<Item>, tokens: seq<Token>, known: seq<string>, keys: seq<string>, vars: seq<string>,
                   renameCi: bool, harvesting: bool, it: Item,
                   known': seq<string>, keys': seq<string>, vars': seq<string>, tok: Token)
    requires Encodes(tokens, items, known, keys, vars, renameCi) && Covers(items, known, keys, vars, renameCi)
             && !TooWide(it)
    requires harvesting ==> forall i | 0 <= i < |items| && IsConstant(items[i]) ::
               Translated(items[i], known, renameCi) in keys
    requires known' == AddAll(known, if IsConstant(it) && IsRenamed(it, renameCi) then [it.e.Meaning()] else [])
    requires keys' == AddAll(keys, if harvesting && IsConstant(it) then [Translated(it, known', renameCi)] else [])
    requires vars' == AddAll(vars, if it.e.IsVar() && it.e.VarName() != "" then [it.e.VarName()] else [])
    requires tok == TokenFor(it, items, known', keys', vars', renameCi)
    ensures Encodes(tokens + [tok], items + [it], known', keys', vars', renameCi)
  {
    hide IsRenamed, NumberOf, NoRepeats, Translated, AddAll, TokenFor, TooWide;
    AddAllKeeps(known, if IsConstant(it) && IsRenamed(it, renameCi) then [it.e.Meaning()] else []);
    AddAllKeeps(keys, if harvesting && IsConstant(it) then [Translated(it, known', renameCi)] else []);
    AddAllKeeps(vars, if it.e.IsVar() && it.e.VarName() != "" then [it.e.VarName()] else []);
    NoEntry(keys);
    forall i | 0 <= i < |items|
      ensures TokenFor(items[i], items[..i], known', keys', vars', renameCi)
              == TokenFor(items[i], items[..i], known, keys, vars, renameCi)
    {
      TokenStays(items[i], items[..i], known, known', keys, keys', vars, vars', renameCi);
    }
    assert forall i | 0 <= i < |items| :: (items + [it])[..i] == items[..i];
    assert (items + [it])[..|items|] == items;
  }

  lemma AddOne(list: seq<string>, x: string)
    ensures AddAll(list, [x]) == Add(list, x)
  {
    assert [x][..0] == [];
  }

  /** Some constant got the id that stands for an unknown meaning. */
  ghost predicate SomeUnknown(items: seq<Item>, tokens: seq<Token>)
  {
    exists i | 0 <= i < |items| && i < |tokens| :: IsConstant(items[i]) && tokens[i].id == KEY_NOT_FOUND
  }

  // ---------------------------------------------------------------- the encoder

  class ExpressionEncoder {
    const meaningDictionary: IdDictionary
    /** Harvest encoders enter new meanings, query encoders only look them up. */
    const harvesting: bool
    var ciTranslations: map<string, string>
    var ciTranslationCounter: nat
    ghost var known: seq<string>

    ghost predicate Valid()
      reads this, meaningDictionary
    {
      && meaningDictionary.Valid()
      && NoRepeats(known) && ciTranslationCounter == |known|
      && (forall k :: k in ciTranslations <==> k in known)
      && (forall k | k in ciTranslations :: ciTranslations[k] == Alias(NumberOf(known, k)))
    }

    constructor (dictionary: IdDictionary, harvesting: bool)
      requires dictionary.Valid()
      ensures Valid() && meaningDictionary == dictionary && this.harvesting == harvesting && known == []
    {
      meaningDictionary, this.harvesting := dictionary, harvesting;
      ciTranslations, ciTranslationCounter, known := map[], 0, [];
    }

    method GetConstantEncoding(meaning: string) returns (id: MeaningId)
      requires Valid()
      modifies meaningDictionary
      ensures Valid() && known == old(known)
      ensures meaningDictionary.keys == AddAll(old(meaningDictionary.keys), if harvesting then [meaning] else [])
      ensures id == ConstantId(NumberOf(meaningDictionary.keys, meaning))
    {
      hide NumberOf, NoRepeats, AddAll;
      AddOne(meaningDictionary.keys, meaning);
      NoEntry(meaningDictionary.keys);
      var n;
      if harvesting {
        n := meaningDictionary.Put(meaning);
      } else {
        n := meaningDictionary.Get(meaning);
        if n == KEY_NOT_FOUND {
          return KEY_NOT_FOUND;
        }
      }
      id := Id24(CONSTANT_ID_MIN + n);
    }

    /** The alias of a name, a new one when the name is new. */
    method Translate(name: string) returns (alias: string)
      requires Valid()
      modifies this
      ensures Valid() && known == AddAll(old(known), [name]) && alias == Alias(NumberOf(known, name))
    {
      hide NumberOf, NoRepeats, AddAll, Alias;
      AddOne(known, name);
      AddKeeps(known, name);
      if name !in ciTranslations {
        ghost var before := known;
        ciTranslationCounter := ciTranslationCounter + 1;
        alias := Alias(ciTranslationCounter);
        ciTranslations := ciTranslations[name := alias];
        known := known + [name];
        forall k | k in before
          ensures NumberOf(known, k) == NumberOf(before, k)
        {
          NumberStays(before, known, k);
        }
      } else {
        alias := ciTranslations[name];
      }
    }

    method GetCiMeaning(it: Item) returns (id: MeaningId)
      requires Valid() && it.e.tag == "ci"
      modifies this, meaningDictionary
      ensures Valid()
      ensures var meaning := Translated(it, known, true);
              && known == AddAll(old(known), if IsRenamed(it, true) then [it.e.Meaning()] else [])
              && meaningDictionary.keys == AddAll(old(meaningDictionary.keys), if harvesting then [meaning] else [])
              && id == ConstantId(NumberOf(meaningDictionary.keys, meaning))
    {
      hide NumberOf, NoRepeats, AddAll, Alias;
      NoEntry(known);
      var tokMeaning := it.e.Meaning();
      if tokMeaning == "#P" || tokMeaning == "#p" || |tokMeaning| > 2 + |it.e.tag| || it.head {
        id := GetConstantEncoding(tokMeaning);
        return;
      }
      var translatedMeaning := Translate(tokMeaning);
      id := GetConstantEncoding(translatedMeaning);
    }

    /** The token of a constant. */
    method EncodeConstant(renameCi: bool, it: Item) returns (tok: Token)
      requires Valid() && IsConstant(it) && !TooWide(it)
      modifies this, meaningDictionary
      ensures Valid()
      ensures known == AddAll(old(known), if IsRenamed(it, renameCi) then [it.e.Meaning()] else [])
      ensures meaningDictionary.keys == AddAll(old(meaningDictionary.keys),
                                               if harvesting then [Translated(it, known, renameCi)] else [])
      ensures tok == Token(ConstantId(NumberOf(meaningDictionary.keys, Translated(it, known, renameCi))), |it.e.kids|)
    {
      hide NumberOf, NoRepeats, AddAll, Alias;
      NoEntry(known);
      var id;
      if renameCi && it.e.tag == "ci" {
        id := GetCiMeaning(it);
      } else {
        id := GetConstantEncoding(it.e.Meaning());
      }
      tok := Token(id, |it.e.kids|);
    }

    /** The token of the next subexpression. */
    method EncodeToken(renameCi: bool, token: Item, namedVarDictionary: IdDictionary, anonVarId: nat, anonRangeId: nat,
                       ghost done: seq<Item>, ghost tokens: seq<Token>, ghost known0: seq<string>,
                       ghost keys0: seq<string>)
        returns (encodedToken: Token, anonVarId': nat, anonRangeId': nat)
      requires Valid() && namedVarDictionary.Valid() && namedVarDictionary != meaningDictionary && !TooWide(token)
      requires Encoded(done, tokens, known0, keys0, known, meaningDictionary.keys, namedVarDictionary.keys, renameCi,
                       harvesting)
      requires anonVarId == AnonVars(done) && anonRangeId == Ranges(done)
      modifies this, meaningDictionary, namedVarDictionary
      ensures Valid() && namedVarDictionary.Valid()
      ensures Encoded(done + [token], tokens + [encodedToken], known0, keys0, known, meaningDictionary.keys,
                      namedVarDictionary.keys, renameCi, harvesting)
      ensures anonVarId' == AnonVars(done + [token]) && anonRangeId' == Ranges(done + [token])
    {
      hide NumberOf, NoRepeats, AddAll, Alias, Encoded, VarNames, AnonVars, Ranges, Translated, IsRenamed;
      ghost var known1, keys1, vars1 := known, meaningDictionary.keys, namedVarDictionary.keys;
      VarsSnoc(done, token);
      NoEntry(known1);
      NoEntry(keys1);
      NoEntry(vars1);
      anonVarId', anonRangeId' := anonVarId, anonRangeId;
      if token.e.IsVar() {
        var qvarName := token.e.VarName();
        if qvarName == "" {
          encodedToken := Token(Id24(ANON_HVAR_ID_MIN + anonVarId), 1);
          anonVarId' := anonVarId + 1;
        } else {
          AddOne(vars1, qvarName);
          var n := namedVarDictionary.Put(qvarName);
          encodedToken := Token(Id24(HVAR_ID_MIN + n), 1);
        }
      } else if token.e.IsRange() {
        encodedToken := Token(Id24(RANGE_ID_MIN + anonRangeId), 1);
        anonRangeId' := anonRangeId + 1;
      } else {
        encodedToken := EncodeConstant(renameCi, token);
      }
      EncodedSnoc(done, tokens, known0, keys0, known1, keys1, vars1, renameCi, harvesting, token,
                  known, meaningDictionary.keys, namedVarDictionary.keys, encodedToken);
    }

    /** Encodes an expression; the result is 0, or -1 when a token has too many children or an
        unknown meaning. */
    method Encode(renameCi: bool, expression: Item) returns (rv: int, encodedFormula: seq<Token>)
      requires Valid()
      modifies this, meaningDictionary
      ensures Valid() && old(known) <= known && old(meaningDictionary.keys) <= meaningDictionary.keys
      ensures !harvesting ==> meaningDictionary.keys == old(meaningDictionary.keys)
      ensures var items := Flat(expression.e, expression.head);
              if SomeTooWide(items) then rv == -1
              else
                && Encoded(items, encodedFormula, old(known), old(meaningDictionary.keys), known,
                           meaningDictionary.keys, AddAll([], VarNames(items)), renameCi, harvesting)
                && rv == if SomeUnknown(items, encodedFormula) then -1 else 0
      ensures known == AddAll(old(known), CiNames(BeforeWide(Flat(expression.e, expression.head)), renameCi))
    {
      hide BeforeWide, NumberOf, NoRepeats, AddAll, Alias, Flat, FlatStack, FlatAll, Encoded, SomeUnknown, SomeTooWide,
           VarNames, AnonVars, Ranges, IsConstant, TokenFor, Translated, CiNames;
      ghost var known0, keys0, items := known, meaningDictionary.keys, Flat(expression.e, expression.head);
      ghost var done: seq<Item> := [];
      var dfsStack := [expression];
      var namedVarDictionary := new IdDictionary();
      var anonVarId, anonRangeId := 0, 0;
      rv, encodedFormula := 0, [];
      StartEncoding(expression, known0, keys0, renameCi, harvesting);
      while dfsStack != []
        invariant Valid() && namedVarDictionary.Valid() && fresh(namedVarDictionary)
        invariant items == done + FlatStack(dfsStack)
        invariant Encoded(done, encodedFormula, known0, keys0, known, meaningDictionary.keys, namedVarDictionary.keys,
                          renameCi, harvesting)
        invariant anonVarId == AnonVars(done) && anonRangeId == Ranges(done)
        invariant rv == if SomeUnknown(done, encodedFormula) then -1 else 0
        decreases |FlatStack(dfsStack)|
      {
        var token := Last(dfsStack);
        PopOne(dfsStack);
        dfsStack := Init(dfsStack);
        EncodedGrows(done, encodedFormula, known0, keys0, known, meaningDictionary.keys, namedVarDictionary.keys,
                     renameCi, harvesting);
        if IsConstant(token) && |token.e.kids| > ENC_TOK_MAX_ARITY {
          FoundTooWide(items, done, token);
          NamesBefore(items, done, encodedFormula, known0, keys0, known, meaningDictionary.keys,
                      namedVarDictionary.keys, renameCi, harvesting);
          return -1, encodedFormula;
        }
        var encodedToken;
        encodedToken, anonVarId, anonRangeId :=
          EncodeToken(renameCi, token, namedVarDictionary, anonVarId, anonRangeId, done, encodedFormula, known0, keys0);
        if IsConstant(token) && encodedToken.id == KEY_NOT_FOUND {
          rv := -1;
        }
        UnknownSnoc(done, encodedFormula, token, encodedToken);
        encodedFormula := encodedFormula + [encodedToken];
        dfsStack := PushKids(token.e, dfsStack);
        done := done + [token];
      }
      AllEncoded(items, done, encodedFormula, known0, keys0, known, meaningDictionary.keys, namedVarDictionary.keys,
                 renameCi, harvesting);
      NamesBefore(items, done, encodedFormula, known0, keys0, known, meaningDictionary.keys, namedVarDictionary.keys,
                  renameCi, harvesting);
    }
  }

  lemma StartEncoding(expression: Item, known: seq<string>, keys: seq<string>, renameCi: bool, harvesting: bool)
    requires NoRepeats(known) && NoRepeats(keys)
    ensures FlatStack([expression]) == Flat(expression.e, expression.head)
    ensures Encoded([], [], known, keys, known, keys, [], renameCi, harvesting)
    ensures AnonVars([]) == 0 && Ranges([]) == 0 && !SomeUnknown([], [])
  {
    assert Init([expression]) == [];
    assert Flat(expression.e, expression.head) + [] == Flat(expression.e, expression.head);
  }

  lemma VarsSnoc(done: seq<Item>, it: Item)
    ensures AnonVars(done + [it]) == AnonVars(done) + if it.e.IsVar() && it.e.VarName() == "" then 1 else 0
    ensures Ranges(done + [it]) == Ranges(done) + if it.e.IsRange() then 1 else 0
  {
    assert Init(done + [it]) == done;
  }

  lemma FoundTooWide(items: seq<Item>, done: seq<Item>, it: Item)
    requires done + [it] <= items && TooWide(it)
    ensures SomeTooWide(items)
  {
    assert items[|done|] == it;
  }

  /** The names known when the encoder stops. */
  lemma NamesBefore(items: seq<Item>, done: seq<Item>, tokens: seq<Token>, known0: seq<string>, keys0: seq<string>,
                    known: seq<string>, keys: seq<string>, vars: seq<string>, renameCi: bool, harvesting: bool)
    requires Encoded(done, tokens, known0, keys0, known, keys, vars, renameCi, harvesting)
    requires done <= items && (done == items || TooWide(items[|done|]))
    ensures known == AddAll(known0, CiNames(BeforeWide(items), renameCi))
  {
    hide NumberOf, NoRepeats, AddAll, CiNames, BeforeWide, TooWide, TokenFor, Translated, IsConstant;
    EncodedGrows(done, tokens, known0, keys0, known, keys, vars, renameCi, harvesting);
    assert items == done + items[|done|..];
    BeforeWideIs(done, items[|done|..]);
  }

  lemma UnknownSnoc(items: seq<Item>, tokens: seq<Token>, it: Item, tok: Token)
    requires |tokens| == |items|
    ensures SomeUnknown(items + [it], tokens + [tok]) <==>
              SomeUnknown(items, tokens) || (IsConstant(it) && tok.id == KEY_NOT_FOUND)
  {
    var items', tokens' := items + [it], tokens + [tok];
    if SomeUnknown(items, tokens) {
      var i :| 0 <= i < |items| && IsConstant(items[i]) && tokens[i].id == KEY_NOT_FOUND;
      assert IsConstant(items'[i]) && tokens'[i].id == KEY_NOT_FOUND;
    }
    if IsConstant(it) && tok.id == KEY_NOT_FOUND {
      assert IsConstant(items'[|items|]) && tokens'[|items|].id == KEY_NOT_FOUND;
    }
  }

  lemma EncodedGrows(items: seq<Item>, tokens: seq<Token>, known0: seq<string>, keys0: seq<string>,
                     known: seq<string>, keys: seq<string>, vars: seq<string>, renameCi: bool, harvesting: bool)
    requires Encoded(items, tokens, known0, keys0, known, keys, vars, renameCi, harvesting)
    ensures known0 <= known && keys0 <= keys && |tokens| == |items| && (!harvesting ==> keys == keys0)
  {
    EncodedCovers(items, tokens, known0, keys0, known, keys, vars, renameCi, harvesting);
  }

  lemma AllEncoded(items: seq<Item>, done: seq<Item>, tokens: seq<Token>, known0: seq<string>, keys0: seq<string>,
                   known: seq<string>, keys: seq<string>, vars: seq<string>, renameCi: bool, harvesting: bool)
    requires Encoded(done, tokens, known0, keys0, known, keys, vars, renameCi, harvesting)
             && items == done + FlatStack([])
    ensures items == done && !SomeTooWide(items) && vars == AddAll([], VarNames(items))
    ensures known0 <= known && keys0 <= keys && (!harvesting ==> keys == keys0)
  {
    assert items == done;
    EncodedGrows(done, tokens, known0, keys0, known, keys, vars, renameCi, harvesting);
  }

  /** The ids of the kinds of tokens, as long as there are few: names from 2 on, anonymous variables from 33 on,
      ranges from 129 on and constants from 162 on. Variables and ranges always get the arity 1. */
  lemma TokenIds(it: Item, before: seq<Item>, known: seq<string>, keys: seq<string>, vars: seq<string>, renameCi: bool)
    requires !TooWide(it) && |vars| <= 31 && AnonVars(before) < 32 && Ranges(before) < 32 && |keys| < 0xFF_FF00
    ensures var tok := TokenFor(it, before, known, keys, vars, renameCi);
            if it.e.tag == "mws:qvar" then
              var name := if it.e.name.Some? then it.e.name.value else it.e.text;
              tok.arity == 1 && tok.id == if name == "" then 33 + AnonVars(before) else 1 + NumberOf(vars, name)
            else if it.e.tag == "mws:range" then tok.arity == 1 && tok.id == 129 + Ranges(before)
            else
              var n := NumberOf(keys, Translated(it, known, renameCi));
              tok.arity == |it.e.kids| && tok.id == if n == 0 then 0 else 161 + n
  {
    hide NumberOf, Translated, AnonVars, Ranges, Id24;
    Id24Small(33 + AnonVars(before));
    Id24Small(129 + Ranges(before));
    Id24Small(161 + NumberOf(keys, Translated(it, known, renameCi)));
    if it.e.IsVar() {
      Id24Small(1 + NumberOf(vars, it.e.VarName()));
    }
  }

  lemma Id24Small(n: nat)
    requires n < 0x100_0000
    ensures Id24(n) == n
  {
  }
}
