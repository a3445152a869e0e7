/** Entering expressions and all their subexpressions into the index and the formula database. */
module IndexBuilders {
  import opened Tokens
  import opened Terms
  import opened Tries
  import opened TmpIndexes
  import opened Expressions
  import opened CiRenaming
  import opened ExpressionEncoders
  import opened AlphaEncoding
  import opened IdDictionaries
  import opened Numberings
  import opened Wrappers
  import A = Answers

  type Data = A.FormulaData

  /** The code of each subexpression in visiting order; None if it was skipped. */
  type Codes = seq<Option<seq<Token>>>

  function CodeSet(codes: Codes): set<seq<Token>> {
    set c | c in codes && c.Some? :: c.value
  }

  function First(codes: Codes, w: seq<Token>): (k: nat)
    requires Some(w) in codes
    ensures k < |codes| && codes[k] == Some(w) && forall j | 0 <= j < k :: codes[j] != Some(w)
  {
    if codes[0] == Some(w) then 0 else 1 + First(codes[1..], w)
  }

  lemma FirstUnique(codes: Codes, w: seq<Token>, k: nat)
    requires k < |codes| && codes[k] == Some(w) && forall j | 0 <= j < k :: codes[j] != Some(w)
    ensures First(codes, w) == k
  {
  }

  /** Every leaf counts the database entries under its id, and ids not handed out have none. */
  ghost predicate Conserved(tree: Trie, nextId: nat, data: Data)
  {
    && (forall w | IsLeafPath(tree, w) :: LeafAt(tree, w).hits == |A.Entries(data, LeafAt(tree, w).id)|)
    && forall id | id in data :: id <= nextId
  }

  ghost function HitsAt(tree: Trie, w: seq<Token>): nat {
    if IsLeafPath(tree, w) then LeafAt(tree, w).hits else 0
  }

  ghost function EntriesAt(tree: Trie, data: Data, w: seq<Token>): seq<A.FormulaInfo> {
    if IsLeafPath(tree, w) then A.Entries(data, LeafAt(tree, w).id) else []
  }

  /** The leaves of tree0 keep their ids; new ones are exactly those in w. */
  ghost predicate Grown(tree0: Trie, tree: Trie, added: set<seq<Token>>)
  {
    && (forall w :: IsLeafPath(tree, w) <==> w in added || IsLeafPath(tree0, w))
    && (forall w | IsLeafPath(tree0, w) :: IsLeafPath(tree, w) && LeafAt(tree, w).id == LeafAt(tree0, w).id)
  }

  /** Every code got one hit and one entry, made for the first subexpression with that code. */
  ghost predicate Entered(tree0: Trie, data0: Data, tree: Trie, data: Data, codes: Codes, infos: seq<A.FormulaInfo>)
    requires |codes| == |infos|
  {
    && Grown(tree0, tree, CodeSet(codes))
    && (forall w :: HitsAt(tree, w) == HitsAt(tree0, w) + if Some(w) in codes then 1 else 0)
    && (forall w ::
          EntriesAt(tree, data, w)
          == EntriesAt(tree0, data0, w) + if Some(w) in codes then [infos[First(codes, w)]] else [])
  }

  // ---------------------------------------------------------------- one subexpression

  /** A code was inserted; when it is the first time, it got one hit and one entry. */
  ghost predicate Changed(tree: Trie, data: Data, tree': Trie, data': Data, code: seq<Token>, extra: seq<A.FormulaInfo>)
  {
    && Grown(tree, tree', {code})
    && (forall w :: HitsAt(tree', w) == HitsAt(tree, w) + if w == code then |extra| else 0)
    && (forall w :: EntriesAt(tree', data', w) == EntriesAt(tree, data, w) + if w == code then extra else [])
  }

  /** The ids seen so far are those of the codes seen so far. */
  ghost predicate Tracks(tree: Trie, unique: set<nat>, codes: Codes)
  {
    forall w | IsLeafPath(tree, w) :: LeafAt(tree, w).id in unique <==> Some(w) in codes
  }

  lemma CodeSetSnoc(codes: Codes, c: Option<seq<Token>>)
    ensures CodeSet(codes + [c]) == CodeSet(codes) + if c.Some? then {c.value} else {}
  {
    if c.Some? {
      assert (codes + [c])[|codes|] == c;
    }
  }

  lemma FirstSnoc(codes: Codes, c: Option<seq<Token>>, w: seq<Token>)
    requires Some(w) in codes + [c]
    ensures First(codes + [c], w) == if Some(w) in codes then First(codes, w) else |codes|
  {
    if Some(w) in codes {
      FirstUnique(codes + [c], w, First(codes, w));
    } else {
      assert (codes + [c])[|codes|] == c;
      FirstUnique(codes + [c], w, |codes|);
    }
  }

  lemma EnteredSnoc(tree0: Trie, data0: Data, tree: Trie, data: Data, tree': Trie, data': Data, codes: Codes,
                    infos: seq<A.FormulaInfo>, code: seq<Token>, info: A.FormulaInfo)
    requires |codes| == |infos| && Entered(tree0, data0, tree, data, codes, infos)
    requires Changed(tree, data, tree', data', code, if Some(code) in codes then [] else [info])
    ensures Entered(tree0, data0, tree', data', codes + [Some(code)], infos + [info])
  {
    hide HitsAt, EntriesAt, IsLeafPath, LeafAt, First, CodeSet;
    var codes', infos' := codes + [Some(code)], infos + [info];
    CodeSetSnoc(codes, Some(code));
    forall w
      ensures HitsAt(tree', w) == HitsAt(tree0, w) + if Some(w) in codes' then 1 else 0
      ensures EntriesAt(tree', data', w)
              == EntriesAt(tree0, data0, w) + if Some(w) in codes' then [infos'[First(codes', w)]] else []
    {
      if Some(w) in codes' {
        FirstSnoc(codes, Some(code), w);
      }
      EntriesSnoc(EntriesAt(tree0, data0, w), codes, infos, code, info, w);
    }
  }

  lemma EntriesSnoc(entries: seq<A.FormulaInfo>, codes: Codes, infos: seq<A.FormulaInfo>, code: seq<Token>,
                    info: A.FormulaInfo, w: seq<Token>)
    requires |codes| == |infos|
    ensures var codes', infos' := codes + [Some(code)], infos + [info];
            (entries + if Some(w) in codes then [infos[First(codes, w)]] else [])
              + (if w == code && Some(code) !in codes then [info] else [])
            == entries + if Some(w) in codes' then [infos'[First(codes', w)]] else []
  {
    hide First;
    if Some(w) in codes + [Some(code)] {
      FirstSnoc(codes, Some(code), w);
    }
    assert entries + [] == entries;
  }

  lemma EnteredSkip(tree0: Trie, data0: Data, tree: Trie, data: Data, codes: Codes, infos: seq<A.FormulaInfo>,
                    info: A.FormulaInfo)
    requires |codes| == |infos| && Entered(tree0, data0, tree, data, codes, infos)
    ensures Entered(tree0, data0, tree, data, codes + [None], infos + [info])
  {
    hide HitsAt, EntriesAt, IsLeafPath, LeafAt, First, CodeSet;
    CodeSetSnoc(codes, None);
    assert CodeSet(codes) + {} == CodeSet(codes);
    forall w | Some(w) in codes + [None]
      ensures Some(w) in codes && First(codes + [None], w) == First(codes, w)
    {
      FirstSnoc(codes, None, w);
    }
  }

  /** Inserting a code alone changes no count. */
  lemma Inserted(tree: Trie, bound: nat, tree': Trie, bound': nat, data: Data, code: seq<Token>)
    requires Conserved(tree, bound, data)
    requires forall q :: IsLeafPath(tree', q) <==> q == code || IsLeafPath(tree, q)
    requires forall q :: IsLeafPath(tree, q) ==> IsLeafPath(tree', q) && LeafAt(tree', q) == LeafAt(tree, q)
    requires IsLeafPath(tree, code) ==> bound' == bound
    requires !IsLeafPath(tree, code) ==> bound' == bound + 1 && LeafAt(tree', code) == Leaf(bound', 0)
    ensures Changed(tree, data, tree', data, code, []) && Conserved(tree', bound', data)
  {
  }

  ghost predicate OneHitMore(tree1: Trie, tree2: Trie, code: seq<Token>)
  {
    && IsLeafPath(tree1, code)
    && (forall q :: IsLeafPath(tree2, q) <==> IsLeafPath(tree1, q))
    && (forall q | IsLeafPath(tree2, q) ::
          LeafAt(tree2, q)
          == if q == code then Leaf(LeafAt(tree1, q).id, LeafAt(tree1, q).hits + 1) else LeafAt(tree1, q))
  }

  /** The entry and the hit of a code that is seen for the first time. */
  lemma Recorded(tree: Trie, tree1: Trie, tree2: Trie, bound: nat, data: Data, code: seq<Token>, info: A.FormulaInfo)
    requires Changed(tree, data, tree1, data, code, []) && Conserved(tree1, bound, data)
    requires OneHitMore(tree1, tree2, code) && IdsBounded(tree1, bound)
    ensures var id := LeafAt(tree1, code).id;
            var data2 := data[id := A.Entries(data, id) + [info]];
            Changed(tree, data, tree2, data2, code, [info]) && Conserved(tree2, bound, data2)
  {
    hide IsLeafPath, LeafAt, A.Entries, Changed, Conserved, HitsAt, EntriesAt, Grown, IdsBounded;
    var id := LeafAt(tree1, code).id;
    var data2 := data[id := A.Entries(data, id) + [info]];
    forall w
      ensures HitsAt(tree2, w) == HitsAt(tree, w) + if w == code then 1 else 0
      ensures EntriesAt(tree2, data2, w) == EntriesAt(tree, data, w) + if w == code then [info] else []
      ensures IsLeafPath(tree2, w) ==> LeafAt(tree2, w).hits == |A.Entries(data2, LeafAt(tree2, w).id)|
    {
      RecordedAt(tree, tree1, tree2, bound, data, code, info, w);
    }
    RecordedOthers(tree, tree1, tree2, bound, data, code, info);
    MakeChanged(tree, data, tree2, data2, code, [info]);
    MakeConserved(tree2, bound, data2);
  }

  lemma RecordedOthers(tree: Trie, tree1: Trie, tree2: Trie, bound: nat, data: Data, code: seq<Token>,
                       info: A.FormulaInfo)
    requires Changed(tree, data, tree1, data, code, []) && Conserved(tree1, bound, data)
    requires OneHitMore(tree1, tree2, code) && IdsBounded(tree1, bound)
    ensures Grown(tree, tree2, {code}) && LeafAt(tree1, code).id <= bound && forall id | id in data :: id <= bound
  {
    hide IsLeafPath, LeafAt, A.Entries, HitsAt, EntriesAt;
  }

  lemma MakeChanged(tree: Trie, data: Data, tree': Trie, data': Data, code: seq<Token>, extra: seq<A.FormulaInfo>)
    requires Grown(tree, tree', {code})
    requires forall w :: HitsAt(tree', w) == HitsAt(tree, w) + if w == code then |extra| else 0
    requires forall w :: EntriesAt(tree', data', w) == EntriesAt(tree, data, w) + if w == code then extra else []
    ensures Changed(tree, data, tree', data', code, extra)
  {
    hide Grown, HitsAt, EntriesAt;
  }

  lemma MakeConserved(tree: Trie, bound: nat, data: Data)
    requires forall w | IsLeafPath(tree, w) :: LeafAt(tree, w).hits == |A.Entries(data, LeafAt(tree, w).id)|
    requires forall id | id in data :: id <= bound
    ensures Conserved(tree, bound, data)
  {
    hide IsLeafPath, LeafAt, A.Entries;
  }

  lemma RecordedAt(tree: Trie, tree1: Trie, tree2: Trie, bound: nat, data: Data, code: seq<Token>, info: A.FormulaInfo,
                   w: seq<Token>)
    requires Changed(tree, data, tree1, data, code, []) && Conserved(tree1, bound, data)
    requires OneHitMore(tree1, tree2, code) && IdsBounded(tree1, bound)
    ensures var id := LeafAt(tree1, code).id;
            var data2 := data[id := A.Entries(data, id) + [info]];
            && HitsAt(tree2, w) == HitsAt(tree, w) + (if w == code then 1 else 0)
            && EntriesAt(tree2, data2, w) == EntriesAt(tree, data, w) + (if w == code then [info] else [])
            && (IsLeafPath(tree2, w) ==> LeafAt(tree2, w).hits == |A.Entries(data2, LeafAt(tree2, w).id)|)
  {
    hide IsLeafPath, LeafAt, Conserved, Changed, Grown;
    ChangedAt(tree, tree1, data, code, w);
    var id := LeafAt(tree1, code).id;
    var data2 := data[id := A.Entries(data, id) + [info]];
    if IsLeafPath(tree1, w) {
      ConservedAt(tree1, bound, data, w);
      assert w != code ==> LeafAt(tree1, w).id != id;
    }
  }

  lemma ChangedAt(tree: Trie, tree1: Trie, data: Data, code: seq<Token>, w: seq<Token>)
    requires Changed(tree, data, tree1, data, code, [])
    ensures HitsAt(tree1, w) == HitsAt(tree, w) && EntriesAt(tree1, data, w) == EntriesAt(tree, data, w)
  {
    assert EntriesAt(tree, data, w) + [] == EntriesAt(tree, data, w);
  }

  lemma ConservedAt(tree: Trie, bound: nat, data: Data, w: seq<Token>)
    requires Conserved(tree, bound, data) && IsLeafPath(tree, w)
    ensures LeafAt(tree, w).hits == |A.Entries(data, LeafAt(tree, w).id)|
  {
  }

  lemma TracksInserted(tree: Trie, tree': Trie, bound: nat, unique: set<nat>, codes: Codes, code: seq<Token>)
    requires Tracks(tree, unique, codes) && Grown(tree, tree', {code}) && IsLeafPath(tree', code)
    requires forall i | i in unique :: i <= bound
    requires !IsLeafPath(tree, code) ==> LeafAt(tree', code).id > bound
    requires forall w | Some(w) in codes :: IsLeafPath(tree, w)
    ensures Tracks(tree', unique, codes)
  {
  }

  lemma TracksRecorded(tree: Trie, tree': Trie, bound: nat, unique: set<nat>, codes: Codes, code: seq<Token>)
    requires Tracks(tree, unique, codes) && IdsBounded(tree, bound) && IsLeafPath(tree, code)
    requires forall q :: IsLeafPath(tree', q) <==> IsLeafPath(tree, q)
    requires forall q :: IsLeafPath(tree', q) ==> LeafAt(tree', q).id == LeafAt(tree, q).id
    ensures Tracks(tree', unique + {LeafAt(tree, code).id}, codes + [Some(code)])
  {
  }

  // ---------------------------------------------------------------- codes of ground expressions

  lemma {:induction false} FlatIsCode(e: Expr, head: bool, w: seq<Token>, need: nat)
    requires |Flat(e, head)| <= |w| && forall i | 0 <= i < |Flat(e, head)| :: w[i].arity == |Flat(e, head)[i].e.kids|
    ensures IsCode(w, need + 1) == IsCode(w[|Flat(e, head)|..], need)
    decreases e, 0
  {
    var below := FlatAll(e.kids, e.tag == "apply");
    assert forall i | 0 <= i < |below| :: below[i] == Flat(e, head)[i + 1] && w[1..][i] == w[i + 1];
    FlatAllIsCode(e.kids, e.tag == "apply", w[1..], need);
    assert w[1..][|below|..] == w[|Flat(e, head)|..];
  }

  lemma {:induction false} FlatAllIsCode(es: seq<Expr>, head: bool, w: seq<Token>, need: nat)
    requires |FlatAll(es, head)| <= |w| && forall i | 0 <= i < |FlatAll(es, head)| ::
               w[i].arity == |FlatAll(es, head)[i].e.kids|
    ensures IsCode(w, need + |es|) == IsCode(w[|FlatAll(es, head)|..], need)
    decreases es, 1
  {
    hide IsCode;
    if es == [] {
      assert w[0..] == w;
    } else {
      var first, rest := Flat(es[0], head), FlatAll(es[1..], false);
      assert FlatAll(es, head) == first + rest;
      assert forall i | 0 <= i < |first| :: first[i] == FlatAll(es, head)[i];
      FlatIsCode(es[0], head, w, need + |es| - 1);
      var w' := w[|first|..];
      assert forall i | 0 <= i < |rest| :: rest[i] == FlatAll(es, head)[|first| + i] && w'[i] == w[|first| + i];
      FlatAllIsCode(es[1..], false, w', need);
      assert w'[|rest|..] == w[|first| + |rest|..];
    }
  }

  lemma {:induction false} FlatClosed(e: Expr, head: bool, it: Item, below: Item)
    requires it in Flat(e, head) && below in Flat(it.e, it.head)
    ensures below in Flat(e, head)
    decreases e, 0
  {
    if it != Item(e, head) {
      assert it in FlatAll(e.kids, e.tag == "apply");
      FlatAllClosed(e.kids, e.tag == "apply", it, below);
    }
  }

  lemma {:induction false} FlatAllClosed(es: seq<Expr>, head: bool, it: Item, below: Item)
    requires it in FlatAll(es, head) && below in Flat(it.e, it.head)
    ensures below in FlatAll(es, head)
    decreases es, 1
  {
    if it in Flat(es[0], head) {
      FlatClosed(es[0], head, it, below);
    } else {
      FlatAllClosed(es[1..], false, it, below);
    }
  }

  /** The code of a ground subexpression under the encoder's names and the dictionary. */
  ghost function CodeOf(it: Item, known: seq<string>, keys: seq<string>, renameCi: bool): seq<Token>
    requires !SomeTooWide(Flat(it.e, it.head))
  {
    var items := Flat(it.e, it.head);
    seq(|items|, i requires 0 <= i < |items| =>
          assert !TooWide(items[i]);
          TokenFor(items[i], [], known, keys, [], renameCi))
  }

  /** All names and entries the item needs are there. */
  ghost predicate Known(it: Item, known: seq<string>, keys: seq<string>, renameCi: bool)
  {
    && NoRepeats(known) && NoRepeats(keys)
    && forall i | 0 <= i < |Flat(it.e, it.head)| ::
         var sub := Flat(it.e, it.head)[i];
         && IsConstant(sub) && (IsRenamed(sub, renameCi) ==> sub.e.Meaning() in known)
         && Translated(sub, known, renameCi) in keys
  }

  lemma CodeStays(it: Item, known: seq<string>, keys: seq<string>, known': seq<string>, keys': seq<string>,
                  renameCi: bool)
    requires !SomeTooWide(Flat(it.e, it.head)) && Known(it, known, keys, renameCi)
    requires known <= known' && keys <= keys' && NoRepeats(known') && NoRepeats(keys')
    ensures Known(it, known', keys', renameCi)
            && CodeOf(it, known', keys', renameCi) == CodeOf(it, known, keys, renameCi)
  {
    hide Flat, NoRepeats, NumberOf, IsRenamed, TokenFor, Translated;
    var items := Flat(it.e, it.head);
    forall i | 0 <= i < |items|
      ensures Translated(items[i], known', renameCi) == Translated(items[i], known, renameCi)
      ensures !TooWide(items[i])
      ensures TokenFor(items[i], [], known', keys', [], renameCi) == TokenFor(items[i], [], known, keys, [], renameCi)
    {
      NothingRepeats();
      TokenStays(items[i], [], known, known', keys, keys', [], [], renameCi);
    }
  }

  /** What the encoder delivers for a ground subexpression. */
  lemma EncodedIsCode(it: Item, tokens: seq<Token>, known0: seq<string>, keys0: seq<string>,
                      known: seq<string>, keys: seq<string>, vars: seq<string>, renameCi: bool)
    requires var items := Flat(it.e, it.head);
             Ground(items) && Encoded(items, tokens, known0, keys0, known, keys, vars, renameCi, true)
    ensures !SomeTooWide(Flat(it.e, it.head)) && Known(it, known, keys, renameCi)
    ensures tokens == CodeOf(it, known, keys, renameCi) && IsCode(tokens, 1)
    ensures IdsFit(keys) ==> !SomeUnknown(Flat(it.e, it.head), tokens)
  {
    hide Flat, NumberOf, IsRenamed, TokenFor, Translated, Encoded, Encodes, IsCode, TooWide;
    var items := Flat(it.e, it.head);
    EncodedCovers(items, tokens, known0, keys0, known, keys, vars, renameCi, true);
    forall i | 0 <= i < |items|
      ensures |tokens| == |items| && !TooWide(items[i]) && Translated(items[i], known, renameCi) in keys
      ensures tokens[i] == TokenFor(items[i], [], known, keys, [], renameCi)
      ensures tokens[i].arity == |items[i].e.kids| && (IdsFit(keys) ==> tokens[i].id != KEY_NOT_FOUND)
    {
      GroundToken(items, tokens, known0, keys0, known, keys, vars, renameCi, keys, i);
      GroundFields(items[i], known, keys, renameCi);
    }
    FlatIsCode(it.e, it.head, tokens, 0);
    NoTokensLeft(tokens, |items|);
  }

  lemma GroundFields(it: Item, known: seq<string>, keys: seq<string>, renameCi: bool)
    requires IsConstant(it) && !TooWide(it) && Translated(it, known, renameCi) in keys
    ensures var tok := TokenFor(it, [], known, keys, [], renameCi);
            tok.arity == |it.e.kids| && (IdsFit(keys) ==> tok.id != KEY_NOT_FOUND)
  {
    hide NumberOf, Translated;
    assert NumberOf(keys, Translated(it, known, renameCi)) != 0;
  }

  lemma NoTokensLeft(tokens: seq<Token>, n: nat)
    requires n == |tokens|
    ensures IsCode(tokens[n..], 0)
  {
  }

  /** Each code is the one of its subexpression, and only subexpressions that are too wide are skipped. */
  ghost predicate CodesAre(codes: Codes, items: seq<Item>, known: seq<string>, keys: seq<string>, renameCi: bool)
  {
    && |codes| == |items|
    && forall k | 0 <= k < |items| ::
         if SomeTooWide(Flat(items[k].e, items[k].head)) then codes[k] == None
         else Known(items[k], known, keys, renameCi) && codes[k] == Some(CodeOf(items[k], known, keys, renameCi))
  }

  lemma CodesSnoc(codes: Codes, items: seq<Item>, known: seq<string>, keys: seq<string>, renameCi: bool,
                  it: Item, c: Option<seq<Token>>, known': seq<string>, keys': seq<string>)
    requires CodesAre(codes, items, known, keys, renameCi)
    requires known <= known' && keys <= keys' && NoRepeats(known') && NoRepeats(keys')
    requires if SomeTooWide(Flat(it.e, it.head)) then c == None
             else Known(it, known', keys', renameCi) && c == Some(CodeOf(it, known', keys', renameCi))
    ensures CodesAre(codes + [c], items + [it], known', keys', renameCi)
  {
    hide Flat, Known, CodeOf, SomeTooWide, NoRepeats;
    forall k | 0 <= k < |items| && !SomeTooWide(Flat(items[k].e, items[k].head))
      ensures Known(items[k], known', keys', renameCi)
      ensures CodeOf(items[k], known', keys', renameCi) == CodeOf(items[k], known, keys, renameCi)
    {
      CodeStays(items[k], known, keys, known', keys', renameCi);
    }
  }

  // ---------------------------------------------------------------- names in visiting order

  /** The items that are not too wide. */
  ghost function NotWide(items: seq<Item>): seq<Item>
    decreases |items|
  {
    if items == [] then [] else NotWide(Init(items)) + if TooWide(Last(items)) then [] else [Last(items)]
  }

  lemma {:induction false} NotWideConcat(a: seq<Item>, b: seq<Item>)
    ensures NotWide(a + b) == NotWide(a) + NotWide(b)
    decreases |b|
  {
    hide NotWide, TooWide;
    if b == [] {
      assert a + b == a;
      NotWideNone();
      assert NotWide(a) + [] == NotWide(a);
    } else {
      var it := Last(b);
      NotWideConcat(a, Init(b));
      NotWideSnoc(a + Init(b), it);
      NotWideSnoc(Init(b), it);
      assert (a + Init(b)) + [it] == a + b && Init(b) + [it] == b;
      Regroup(NotWide(a), NotWide(Init(b)), if TooWide(it) then [] else [it]);
    }
  }

  lemma NotWideNone()
    ensures NotWide([]) == []
  {
  }

  lemma NotWideSnoc(items: seq<Item>, it: Item)
    ensures NotWide(items + [it]) == NotWide(items) + if TooWide(it) then [] else [it]
  {
    hide TooWide;
    assert Init(items + [it]) == items && Last(items + [it]) == it;
  }

  lemma Regroup<T>(a: seq<T>, b: seq<T>, c: seq<T>)
    ensures (a + b) + c == a + (b + c)
  {
  }

  lemma {:induction false} NoneWide(items: seq<Item>)
    requires forall i | 0 <= i < |items| :: !TooWide(items[i])
    ensures NotWide(items) == items
    decreases |items|
  {
    hide NotWide, TooWide;
    if items == [] {
      NotWideNone();
    } else {
      NoneWide(Init(items));
      NotWideSnoc(Init(items), Last(items));
      assert Init(items) + [Last(items)] == items;
    }
  }

  lemma {:induction false} CiNamesConcat(a: seq<Item>, b: seq<Item>, renameCi: bool)
    ensures CiNames(a + b, renameCi) == CiNames(a, renameCi) + CiNames(b, renameCi)
    decreases |b|
  {
    hide CiNames, IsRenamed, IsConstant;
    if b == [] {
      assert a + b == a;
      NoCiNames(renameCi);
      assert CiNames(a, renameCi) + [] == CiNames(a, renameCi);
    } else {
      var it := Last(b);
      CiNamesConcat(a, Init(b), renameCi);
      CiNamesSnoc(a + Init(b), it, renameCi);
      CiNamesSnoc(Init(b), it, renameCi);
      assert (a + Init(b)) + [it] == a + b && Init(b) + [it] == b;
      Regroup(CiNames(a, renameCi), CiNames(Init(b), renameCi),
              if IsConstant(it) && IsRenamed(it, renameCi) then [it.e.Meaning()] else []);
    }
  }

  lemma NoCiNames(renameCi: bool)
    ensures CiNames([], renameCi) == []
  {
  }

  lemma CiNamesSnoc(items: seq<Item>, it: Item, renameCi: bool)
    ensures CiNames(items + [it], renameCi)
            == CiNames(items, renameCi) + if IsConstant(it) && IsRenamed(it, renameCi) then [it.e.Meaning()] else []
  {
    hide IsRenamed, IsConstant;
    assert Init(items + [it]) == items && Last(items + [it]) == it;
  }

  /** The names of the first m items are known, in their order; those of items that are too wide never are. */
  ghost predicate Reached(items: seq<Item>, m: nat, known: seq<string>, renameCi: bool)
  {
    m <= |items| && known == AddAll([], CiNames(NotWide(items[..m]), renameCi))
  }

  /** Encoding subexpression k goes on from there, and no further than the first item that is too wide. */
  lemma ReachedMore(items: seq<Item>, m: nat, known: seq<string>, renameCi: bool, k: nat, below: seq<Item>)
      returns (m': nat)
    requires Reached(items, m, known, renameCi) && k <= m && k < |items|
    requires below != [] && below <= items[k..]
    ensures k < m' && Reached(items, m', AddAll(known, CiNames(BeforeWide(below), renameCi)), renameCi)
  {
    hide BeforeWide, CiNames, AddAll, NotWide, TooWide;
    var part := BeforeWide(below);
    if k + |part| <= m {
      assert items[..m] == (items[..k] + part) + items[k + |part|..m];
      NamesAgain(items[..k], part, items[k + |part|..m], renameCi);
      m' := m;
      if m == k {
        AtWide(items, k, below, renameCi);
        m' := k + 1;
      }
    } else {
      var old', new' := part[..m - k], part[m - k..];
      assert part == old' + new' && items[..m] == items[..k] + old' && items[..k + |part|] == items[..m] + new';
      assert items[..m] == (items[..k] + old') + [];
      NamesAgain(items[..k], old', [], renameCi);
      NamesMore(items[..m], old', new', known, renameCi);
      m' := k + |part|;
    }
  }

  lemma AllReached(items: seq<Item>, m: nat, known: seq<string>, renameCi: bool)
    requires Reached(items, m, known, renameCi) && |items| <= m
    ensures known == AddAll([], CiNames(NotWide(items), renameCi))
  {
    assert items[..m] == items;
  }

  /** Items whose names are known bring nothing new. */
  lemma NamesAgain(a: seq<Item>, part: seq<Item>, b: seq<Item>, renameCi: bool)
    requires forall i | 0 <= i < |part| :: !TooWide(part[i])
    ensures var known := AddAll([], CiNames(NotWide((a + part) + b), renameCi));
            AddAll(known, CiNames(part, renameCi)) == known
  {
    hide CiNames, AddAll, NotWide, TooWide, NoRepeats;
    NotWideConcat(a + part, b);
    NotWideConcat(a, part);
    NoneWide(part);
    CiNamesConcat(NotWide(a) + part, NotWide(b), renameCi);
    CiNamesConcat(NotWide(a), part, renameCi);
    var names := CiNames(NotWide((a + part) + b), renameCi);
    NothingRepeats();
    AddAllKeeps([], names);
    AddKnown(AddAll([], names), CiNames(part, renameCi));
  }

  lemma NamesMore(a: seq<Item>, again: seq<Item>, more: seq<Item>, known: seq<string>, renameCi: bool)
    requires known == AddAll([], CiNames(NotWide(a), renameCi)) == AddAll(known, CiNames(again, renameCi))
    requires forall i | 0 <= i < |more| :: !TooWide(more[i])
    ensures AddAll(known, CiNames(again + more, renameCi)) == AddAll([], CiNames(NotWide(a + more), renameCi))
  {
    hide CiNames, AddAll, NotWide, TooWide;
    CiNamesConcat(again, more, renameCi);
    AddAllParts(known, CiNames(again, renameCi), CiNames(more, renameCi));
    NotWideConcat(a, more);
    NoneWide(more);
    CiNamesConcat(NotWide(a), more, renameCi);
    AddAllParts([], CiNames(NotWide(a), renameCi), CiNames(more, renameCi));
  }

  /** Nothing is known of an item that is too wide. */
  lemma AtWide(items: seq<Item>, k: nat, below: seq<Item>, renameCi: bool)
    requires k < |items| && below != [] && below <= items[k..] && BeforeWide(below) == []
    ensures NotWide(items[..k + 1]) == NotWide(items[..k])
  {
    hide TooWide;
    assert below[0] == items[k];
    assert Init(items[..k + 1]) == items[..k] && Last(items[..k + 1]) == items[k];
  }

  // ---------------------------------------------------------------- the builder

  class IndexBuilder {
    const formulaDb: A.MemFormulaDb
    const index: TmpIndex
    const meaningDictionary: IdDictionary
    const renameCi: bool

    ghost predicate Valid()
      reads this, formulaDb, meaningDictionary, index, index.Repr()
    {
      && index.Valid() && meaningDictionary.Valid()
      && (formulaDb as object) !in index.Repr() && (meaningDictionary as object) !in index.Repr()
      && Conserved(index.tree, index.nextId, formulaDb.data)
    }

    constructor (formulaDb: A.MemFormulaDb, index: TmpIndex, meaningDictionary: IdDictionary, renameCi: bool)
      requires index.Valid() && meaningDictionary.Valid()
      requires (formulaDb as object) !in index.Repr() && (meaningDictionary as object) !in index.Repr()
      requires Conserved(index.tree, index.nextId, formulaDb.data)
      ensures Valid() && this.formulaDb == formulaDb && this.index == index
              && this.meaningDictionary == meaningDictionary
      ensures this.renameCi == renameCi
    {
      this.formulaDb, this.index, this.meaningDictionary, this.renameCi := formulaDb, index, meaningDictionary,
          renameCi;
    }

    /** Inserts a code; the first time it is seen in this expression it gets a hit and an entry. */
    method IndexCode(code: seq<Token>, unique: set<nat>, info: A.FormulaInfo, ghost tree0: Trie, ghost data0: Data,
                     ghost codes: Codes, ghost infos: seq<A.FormulaInfo>)
        returns (unique': set<nat>, isNew: bool)
      requires Valid() && IsCode(code, 1) && |codes| == |infos|
      requires Entered(tree0, data0, index.tree, formulaDb.data, codes, infos)
      requires Tracks(index.tree, unique, codes) && forall i | i in unique :: i <= index.nextId
      modifies index.Repr(), formulaDb
      ensures Valid() && fresh(index.Repr() - old(index.Repr())) && index.nextId >= old(index.nextId)
      ensures Entered(tree0, data0, index.tree, formulaDb.data, codes + [Some(code)], infos + [info])
      ensures Tracks(index.tree, unique', codes + [Some(code)]) && forall i | i in unique' :: i <= index.nextId
      ensures isNew <==> Some(code) !in codes
    {
      hide IsLeafPath, LeafAt, Conserved, Entered, Changed, Tracks, IdsBounded, WellFormed, Grown, HitsAt, EntriesAt,
           First, A.Entries;
      hide TmpIndex.Linked, NumberOf, NoRepeats;
      ghost var tree1, data1 := index.tree, formulaDb.data;
      var leaf := index.InsertData(code);
      ghost var tree2 := index.tree;
      AfterInsert(tree0, data0, tree1, old(index.nextId), tree2, index.nextId, data1, code, unique, codes, infos);
      LeafIn(index, code);
      isNew := leaf.id !in unique;
      unique' := unique;
      if isNew {
        unique' := unique + {leaf.id};
        Record(leaf, code, info, tree1, unique, codes);
      } else {
        TracksAgain(tree2, unique, codes, code);
      }
      EnteredSnoc(tree0, data0, tree1, data1, index.tree, formulaDb.data, codes, infos, code, info);
    }

    /** Enters an expression and all its subexpressions and returns the number of their distinct
        codes. For a dictionary that still fits, only what is too wide to be encoded is skipped. */
    method IndexContentMath(cmmlToken: Item, xmlId: string, crawlId: nat)
        returns (numSubExpressions: nat, ghost codes: Codes, ghost known: seq<string>)
      requires Valid() && Ground(Flat(cmmlToken.e, cmmlToken.head))
      modifies index, index.Repr(), formulaDb, meaningDictionary
      ensures Valid() && fresh(index.Repr() - old(index.Repr()))
              && old(meaningDictionary.keys) <= meaningDictionary.keys
      ensures var items := Flat(cmmlToken.e, cmmlToken.head);
              && |codes| == |items|
              && numSubExpressions == |CodeSet(codes)|
              && Entered(old(index.tree), old(formulaDb.data), index.tree, formulaDb.data, codes,
                         Infos(items, xmlId, crawlId))
              && (IdsFit(meaningDictionary.keys) ==> CodesAre(codes, items, known, meaningDictionary.keys, renameCi))
              && known == AddAll([], CiNames(NotWide(items), renameCi))
      ensures forall i | 0 <= i < |codes| ::
                var info := Infos(Flat(cmmlToken.e, cmmlToken.head), xmlId, crawlId)[i];
                && info.crawlId == crawlId && info.xmlId == xmlId
                && info.xpath == Flat(cmmlToken.e, cmmlToken.head)[i].e.xpath
    {
      hide Conserved, Entered, Tracks, IdsBounded, WellFormed, First, A.Entries, Flat, FlatStack, FlatAll, CodesAre,
           Infos, CodeSet;
      hide TmpIndex.Valid, NumberOf, NoRepeats, AddAll, CiNames, IdsFit, SomeTooWide, Ground, Encoded, SomeUnknown,
           ExpressionEncoder.Valid, IdDictionary.Valid, Reached, NotWide, BeforeWide;
      ghost var tree0, data0, items := index.tree, formulaDb.data, Flat(cmmlToken.e, cmmlToken.head);
      ghost var done: seq<Item> := [];
      var uniqueFormulaIds: set<nat> := {};
      var encoder := new ExpressionEncoder(meaningDictionary, true);
      numSubExpressions, codes := 0, [];
      var subtermStack := [cmmlToken];
      ghost var reached := 0;
      StartIndexing(cmmlToken, tree0, data0, meaningDictionary.keys, renameCi, xmlId, crawlId);
      while subtermStack != []
        invariant Valid() && encoder.Valid() && fresh(index.Repr() - old(index.Repr())) && fresh(encoder)
        invariant (encoder as object) !in index.Repr()
        invariant items == done + FlatStack(subtermStack) && |codes| == |done|
        invariant numSubExpressions == |CodeSet(codes)| && old(meaningDictionary.keys) <= meaningDictionary.keys
        invariant Entered(tree0, data0, index.tree, formulaDb.data, codes, Infos(done, xmlId, crawlId))
        invariant Tracks(index.tree, uniqueFormulaIds, codes) && forall i | i in uniqueFormulaIds :: i <= index.nextId
        invariant IdsFit(meaningDictionary.keys) ==>
                    CodesAre(codes, done, encoder.known, meaningDictionary.keys, renameCi)
        invariant |done| <= reached && Reached(items, reached, encoder.known, renameCi)
        decreases |FlatStack(subtermStack)|
      {
        ghost var currentSubterm := Last(subtermStack);
        var isNew;
        ghost var c;
        subtermStack, uniqueFormulaIds, isNew, c, reached :=
          IndexTop(encoder, subtermStack, uniqueFormulaIds, xmlId, crawlId, cmmlToken, tree0, data0, done, codes,
                   reached);
        CountCodes(codes, c);
        if isNew {
          numSubExpressions := numSubExpressions + 1;
        }
        codes, done := codes + [c], done + [currentSubterm];
      }
      NothingToVisit(subtermStack);
      assert items == done;
      known := encoder.known;
      AllReached(items, reached, known, renameCi);
      InfosAt(items, xmlId, crawlId);
    }

    /** Takes the next subexpression from the stack, puts its children there, and enters its code. */
    method IndexTop(encoder: ExpressionEncoder, stack: seq<Item>, unique: set<nat>, xmlId: string, crawlId: nat,
                    ghost whole: Item, ghost tree0: Trie, ghost data0: Data, ghost done: seq<Item>,
                    ghost codes: Codes, ghost reached: nat)
        returns (stack': seq<Item>, unique': set<nat>, isNew: bool, ghost c: Option<seq<Token>>, ghost reached': nat)
      requires Valid() && encoder.Valid() && encoder.meaningDictionary == meaningDictionary && encoder.harvesting
      requires (encoder as object) !in index.Repr() && |codes| == |done|
      requires Entered(tree0, data0, index.tree, formulaDb.data, codes, Infos(done, xmlId, crawlId))
      requires Tracks(index.tree, unique, codes) && forall i | i in unique :: i <= index.nextId
      requires IdsFit(meaningDictionary.keys) ==> CodesAre(codes, done, encoder.known, meaningDictionary.keys, renameCi)
      requires Ground(Flat(whole.e, whole.head)) && Flat(whole.e, whole.head) == done + FlatStack(stack) && stack != []
      requires |done| <= reached && Reached(Flat(whole.e, whole.head), reached, encoder.known, renameCi)
      modifies index.Repr(), formulaDb, meaningDictionary, encoder
      ensures Valid() && encoder.Valid() && fresh(index.Repr() - old(index.Repr()))
      ensures old(meaningDictionary.keys) <= meaningDictionary.keys
      ensures Flat(whole.e, whole.head) == done + [Last(stack)] + FlatStack(stack')
      ensures Entered(tree0, data0, index.tree, formulaDb.data, codes + [c],
                      Infos(done + [Last(stack)], xmlId, crawlId))
      ensures Tracks(index.tree, unique', codes + [c]) && forall i | i in unique' :: i <= index.nextId
      ensures IdsFit(meaningDictionary.keys) ==>
                CodesAre(codes + [c], done + [Last(stack)], encoder.known, meaningDictionary.keys, renameCi)
      ensures |done| < reached' && Reached(Flat(whole.e, whole.head), reached', encoder.known, renameCi)
      ensures isNew <==> c.Some? && c !in codes
    {
      hide Conserved, Entered, Tracks, IdsBounded, WellFormed, Flat, FlatStack, FlatAll, CodesAre, Infos, CodeSet;
      hide TmpIndex.Valid, NumberOf, NoRepeats, AddAll, CiNames, IdsFit, Ground, ExpressionEncoder.Valid,
           IdDictionary.Valid, Reached, BeforeWide, Conserved;
      ghost var items, known0 := Flat(whole.e, whole.head), encoder.known;
      var currentSubterm := Last(stack);
      PopOne(stack);
      NextItem(items, done, stack);
      stack' := PushKids(currentSubterm.e, Init(stack));
      unique', isNew, c := IndexSubterm(encoder, currentSubterm, unique, xmlId, crawlId, whole, tree0, data0, done,
                                        codes);
      reached' := ReachedMore(items, reached, known0, renameCi, |done|, Flat(currentSubterm.e, currentSubterm.head));
    }

    /** Encodes one subexpression and, if that succeeds, enters its code. */
    method IndexSubterm(encoder: ExpressionEncoder, token: Item, unique: set<nat>, xmlId: string, crawlId: nat,
                        ghost whole: Item, ghost tree0: Trie, ghost data0: Data, ghost done: seq<Item>,
                        ghost codes: Codes)
        returns (unique': set<nat>, isNew: bool, ghost c: Option<seq<Token>>)
      requires Valid() && encoder.Valid() && encoder.meaningDictionary == meaningDictionary && encoder.harvesting
      requires (encoder as object) !in index.Repr() && |codes| == |done|
      requires Entered(tree0, data0, index.tree, formulaDb.data, codes, Infos(done, xmlId, crawlId))
      requires Tracks(index.tree, unique, codes) && forall i | i in unique :: i <= index.nextId
      requires IdsFit(meaningDictionary.keys) ==> CodesAre(codes, done, encoder.known, meaningDictionary.keys, renameCi)
      requires Ground(Flat(whole.e, whole.head)) && token in Flat(whole.e, whole.head)
      modifies index.Repr(), formulaDb, meaningDictionary, encoder
      ensures Valid() && encoder.Valid() && fresh(index.Repr() - old(index.Repr()))
      ensures old(meaningDictionary.keys) <= meaningDictionary.keys
      ensures Entered(tree0, data0, index.tree, formulaDb.data, codes + [c], Infos(done + [token], xmlId, crawlId))
      ensures Tracks(index.tree, unique', codes + [c]) && forall i | i in unique' :: i <= index.nextId
      ensures IdsFit(meaningDictionary.keys) ==>
                CodesAre(codes + [c], done + [token], encoder.known, meaningDictionary.keys, renameCi)
      ensures encoder.known == AddAll(old(encoder.known), CiNames(BeforeWide(Flat(token.e, token.head)), renameCi))
      ensures isNew <==> c.Some? && c !in codes
    {
      hide Conserved, Entered, Tracks, IdsBounded, WellFormed, First, A.Entries, Flat, CodesAre, Infos, CodeSet;
      hide TmpIndex.Valid, NumberOf, NoRepeats, AddAll, CiNames, IdsFit, SomeTooWide, Ground, SomeUnknown, Encodes,
           Entries, BeforeWide;
      ghost var known0, keys0, info := encoder.known, meaningDictionary.keys, InfoOf(token, xmlId, crawlId);
      InfosSnoc(done, token, xmlId, crawlId);
      GroundBelow(whole, token);
      var rv, encodedFormula := encoder.Encode(renameCi, token);
      AfterEncoding(token, encodedFormula, known0, keys0, encoder.known, meaningDictionary.keys, renameCi, rv);
      c := if rv == 0 then Some(encodedFormula) else None;
      if IdsFit(meaningDictionary.keys) {
        FitBefore(keys0, meaningDictionary.keys);
        EncoderLists(encoder);
        CodesSnoc(codes, done, known0, keys0, renameCi, token, c, encoder.known, meaningDictionary.keys);
      }
      unique', isNew := unique, false;
      if rv != 0 {
        EnteredSkip(tree0, data0, index.tree, formulaDb.data, codes, Infos(done, xmlId, crawlId), info);
        TracksSkip(index.tree, unique, codes);
        return;
      }
      unique', isNew := IndexCode(encodedFormula, unique, InfoOf(token, xmlId, crawlId), tree0, data0, codes,
                                  Infos(done, xmlId, crawlId));
    }

    /** The database entry and the hit. */
    method Record(leaf: TmpIndexNode, ghost code: seq<Token>, info: A.FormulaInfo, ghost tree1: Trie,
                  ghost unique: set<nat>, ghost codes: Codes)
      requires Valid() && WellFormed(index.tree, 1) && IsLeafPath(index.tree, code)
      requires code in index.at && leaf == index.at[code] && leaf.id == LeafAt(index.tree, code).id
      requires Changed(tree1, formulaDb.data, index.tree, formulaDb.data, code, []) && Tracks(index.tree, unique, codes)
      modifies index`tree, leaf, formulaDb
      ensures Valid() && index.Repr() == old(index.Repr())
      ensures Changed(tree1, old(formulaDb.data), index.tree, formulaDb.data, code, [info])
      ensures Tracks(index.tree, unique + {leaf.id}, codes + [Some(code)]) && leaf.id <= index.nextId
    {
      hide IsLeafPath, LeafAt, Conserved, Changed, Tracks, IdsBounded, WellFormed, A.Entries;
      hide TmpIndex.Linked, NumberOf, NoRepeats;
      ghost var data, tree2 := formulaDb.data, index.tree;
      IdsIn(index);
      formulaDb.InsertFormula(leaf.id, info);
      index.CountSolution(leaf, code);
      AfterCount(tree1, tree2, index.tree, index.nextId, data, code, info, unique, codes);
    }
  }

  lemma LeafIn(idx: TmpIndex, w: seq<Token>)
    requires idx.Valid() && w in idx.at && IsLeafPath(idx.tree, w)
    ensures idx.at[w].id == LeafAt(idx.tree, w).id
  {
    LeafNode(idx, w);
  }

  lemma IdsIn(idx: TmpIndex)
    requires idx.Valid()
    ensures IdsBounded(idx.tree, idx.nextId)
  {
  }

  lemma AfterInsert(tree0: Trie, data0: Data, tree1: Trie, bound: nat, tree2: Trie, bound': nat, data: Data,
                    code: seq<Token>, unique: set<nat>, codes: Codes, infos: seq<A.FormulaInfo>)
    requires Conserved(tree1, bound, data) && Tracks(tree1, unique, codes) && forall i | i in unique :: i <= bound
    requires |codes| == |infos| && Entered(tree0, data0, tree1, data, codes, infos)
    requires forall q :: IsLeafPath(tree2, q) <==> q == code || IsLeafPath(tree1, q)
    requires forall q :: IsLeafPath(tree1, q) ==> IsLeafPath(tree2, q) && LeafAt(tree2, q) == LeafAt(tree1, q)
    requires IsLeafPath(tree1, code) ==> bound' == bound
    requires !IsLeafPath(tree1, code) ==> bound' == bound + 1 && LeafAt(tree2, code) == Leaf(bound', 0)
    ensures Changed(tree1, data, tree2, data, code, []) && Conserved(tree2, bound', data)
    ensures Tracks(tree2, unique, codes) && bound' >= bound
    ensures LeafAt(tree2, code).id in unique <==> Some(code) in codes
  {
    hide IsLeafPath, LeafAt, Conserved, HitsAt, EntriesAt;
    Inserted(tree1, bound, tree2, bound', data, code);
    forall w | Some(w) in codes
      ensures IsLeafPath(tree1, w)
    {
      assert w in CodeSet(codes);
    }
    TracksInserted(tree1, tree2, bound, unique, codes, code);
  }

  lemma AfterCount(tree1: Trie, tree2: Trie, tree3: Trie, bound: nat, data: Data, code: seq<Token>, info: A.FormulaInfo,
                   unique: set<nat>, codes: Codes)
    requires Changed(tree1, data, tree2, data, code, []) && Conserved(tree2, bound, data)
    requires OneHitMore(tree2, tree3, code) && IdsBounded(tree2, bound) && Tracks(tree2, unique, codes)
    ensures var id := LeafAt(tree2, code).id;
            var data' := data[id := A.Entries(data, id) + [info]];
            && Changed(tree1, data, tree3, data', code, [info]) && Conserved(tree3, bound, data')
            && Tracks(tree3, unique + {id}, codes + [Some(code)]) && id <= bound
  {
    hide Conserved, Changed, A.Entries;
    Recorded(tree1, tree2, tree3, bound, data, code, info);
    TracksRecorded(tree2, tree3, bound, unique, codes, code);
  }

  lemma TracksAgain(tree: Trie, unique: set<nat>, codes: Codes, code: seq<Token>)
    requires Tracks(tree, unique, codes) && Some(code) in codes
    ensures Tracks(tree, unique, codes + [Some(code)])
  {
  }

  function InfoOf(it: Item, xmlId: string, crawlId: nat): A.FormulaInfo {
    A.FormulaInfo(crawlId, xmlId, it.e.xpath)
  }

  function Infos(items: seq<Item>, xmlId: string, crawlId: nat): (r: seq<A.FormulaInfo>)
    ensures |r| == |items|
  {
    seq(|items|, i requires 0 <= i < |items| => InfoOf(items[i], xmlId, crawlId))
  }

  lemma InfosAt(items: seq<Item>, xmlId: string, crawlId: nat)
    ensures forall i | 0 <= i < |items| ::
              var info := Infos(items, xmlId, crawlId)[i];
              info.crawlId == crawlId && info.xmlId == xmlId && info.xpath == items[i].e.xpath
  {
  }

  lemma CountCodes(codes: Codes, c: Option<seq<Token>>)
    ensures |CodeSet(codes + [c])| == |CodeSet(codes)| + if c.Some? && c !in codes then 1 else 0
  {
    CodeSetSnoc(codes, c);
    if c.Some? {
      assert c in codes <==> c.value in CodeSet(codes);
      if c in codes {
        assert CodeSet(codes) + {c.value} == CodeSet(codes);
      }
    } else {
      assert CodeSet(codes) + {} == CodeSet(codes);
    }
  }

  /** The subexpression on top of the stack is the next item, and its own items follow. */
  lemma NextItem(items: seq<Item>, done: seq<Item>, stack: seq<Item>)
    requires stack != [] && items == done + FlatStack(stack)
    ensures var top := Last(stack);
            |done| < |items| && Flat(top.e, top.head) != [] && Flat(top.e, top.head) <= items[|done|..]
  {
    hide Flat;
    var top := Last(stack);
    assert items[|done|..] == FlatStack(stack);
    assert Flat(top.e, top.head) <= Flat(top.e, top.head) + FlatStack(Init(stack));
  }

  lemma StartIndexing(whole: Item, tree: Trie, data: Data, keys: seq<string>, renameCi: bool, xmlId: string,
                      crawlId: nat)
    ensures FlatStack([whole]) == Flat(whole.e, whole.head) && Flat(whole.e, whole.head)[0] == whole
    ensures Entered(tree, data, tree, data, [], Infos([], xmlId, crawlId)) && Tracks(tree, {}, [])
    ensures CodesAre([], [], [], keys, renameCi) && |CodeSet([])| == 0
    ensures Reached(Flat(whole.e, whole.head), 0, [], renameCi)
  {
    assert Init([whole]) == [];
    assert Flat(whole.e, whole.head) + [] == Flat(whole.e, whole.head);
    assert CodeSet([]) == {};
    forall w
      ensures EntriesAt(tree, data, w) + [] == EntriesAt(tree, data, w)
    {
    }
  }

  lemma InfosSnoc(items: seq<Item>, it: Item, xmlId: string, crawlId: nat)
    ensures Infos(items + [it], xmlId, crawlId) == Infos(items, xmlId, crawlId) + [InfoOf(it, xmlId, crawlId)]
  {
  }

  lemma GroundBelow(whole: Item, it: Item)
    requires Ground(Flat(whole.e, whole.head)) && it in Flat(whole.e, whole.head)
    ensures Ground(Flat(it.e, it.head))
  {
    hide Flat, IsConstant;
    var items, below := Flat(whole.e, whole.head), Flat(it.e, it.head);
    forall i | 0 <= i < |below|
      ensures IsConstant(below[i])
    {
      FlatClosed(whole.e, whole.head, it, below[i]);
      var k :| 0 <= k < |items| && items[k] == below[i];
    }
  }

  lemma FitBefore(keys: seq<string>, keys': seq<string>)
    requires keys <= keys' && IdsFit(keys')
    ensures IdsFit(keys)
  {
  }

  lemma EncoderLists(encoder: ExpressionEncoder)
    requires encoder.Valid()
    ensures NoRepeats(encoder.known) && NoRepeats(encoder.meaningDictionary.keys)
  {
  }

  lemma TracksSkip(tree: Trie, unique: set<nat>, codes: Codes)
    requires Tracks(tree, unique, codes)
    ensures Tracks(tree, unique, codes + [None])
  {
  }

  lemma AfterEncoding(it: Item, tokens: seq<Token>, known0: seq<string>, keys0: seq<string>, known: seq<string>,
                      keys: seq<string>, renameCi: bool, rv: int)
    requires var items := Flat(it.e, it.head);
             && Ground(items)
             && if SomeTooWide(items) then rv == -1
                else
                  && Encoded(items, tokens, known0, keys0, known, keys, AddAll([], VarNames(items)), renameCi, true)
                  && rv == if SomeUnknown(items, tokens) then -1 else 0
    ensures var items := Flat(it.e, it.head);
            && (!SomeTooWide(items) ==>
                  && known == AddAll(known0, CiNames(items, renameCi))
                  && Known(it, known, keys, renameCi) && tokens == CodeOf(it, known, keys, renameCi))
            && (rv == 0 ==> IsCode(tokens, 1))
            && (IdsFit(keys) ==> (rv == 0 <==> !SomeTooWide(items)))
  {
    hide Flat, SomeTooWide, Ground, CodeOf, Known, IdsFit, SomeUnknown, AddAll, CiNames, VarNames, Encodes, NoRepeats,
         KeysAfter;
    if !SomeTooWide(Flat(it.e, it.head)) {
      EncodedIsCode(it, tokens, known0, keys0, known, keys, AddAll([], VarNames(Flat(it.e, it.head))), renameCi);
    }
  }
}
