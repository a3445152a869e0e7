/** Schemata of formulae: what is kept of a term at a given depth, and the query pattern that
    stands for all terms with the same kept part. */
module Schemas {
  import opened Tokens
  import opened Terms

  /** A Content MathML tree. Qvar(n) is the query variable element whose text is "x" and n. */
  datatype Cmml = Node(tag: string, text: string, children: seq<Cmml>) | Qvar(n: nat)

  /** The meaning of each token id, as tag, '#', text. */
  type Decoder = MeaningId -> string

  function HashAt(s: string, i: nat): (k: nat)
    requires i <= |s|
    ensures i <= k <= |s| && (k < |s| ==> s[k] == '#') && forall j | i <= j < k :: s[j] != '#'
    decreases |s| - i
  {
    if i == |s| || s[i] == '#' then i else HashAt(s, i + 1)
  }

  function DecodeMeaning(meaning: string): (string, string) {
    var delim := HashAt(meaning, 0);
    if delim == |meaning| then (meaning, "") else (meaning[..delim], meaning[delim + 1..])
  }

  predicate IsApply(dec: Decoder, tok: Token) {
    "apply" <= DecodeMeaning(dec(tok.id)).0
  }

  /** Tags are stored without the prefix "m:", texts without white space. */
  function CleanTag(tag: string): string {
    if "m:" <= tag then tag[2..] else tag
  }

  predicate IsSpace(c: char) {
    c == ' ' || c == '\t' || c == '\n' || c == '\r' || c as int == 11 || c as int == 12
  }

  function NoSpaces(text: string): string {
    if text == "" then ""
    else (if text[0] == ' ' || 9 <= text[0] as int <= 13 then "" else [text[0]]) + NoSpaces(text[1..])
  }

  function NodeOf(dec: Decoder, tok: Token, children: seq<Cmml>): (c: Cmml)
    ensures c.Node? && c.children == children
  {
    var meaning := DecodeMeaning(dec(tok.id));
    Node(CleanTag(meaning.0), NoSpaces(meaning.1), children)
  }

  // ---------------------------------------------------------------- truncation

  /** A child of a node on level h is kept above the cut-off d, and as first child of an apply. */
  predicate Kept(h: nat, d: nat, first: bool) {
    h < d || first
  }

  /** The tokens kept of the term t on level h. */
  function Reduced(dec: Decoder, t: Term, h: nat, d: nat): seq<Token>
    decreases t, 0, 0
  {
    [t.tok] + ReducedKids(dec, t.args, h, d, IsApply(dec, t.tok))
  }

  /** The tokens kept of the remaining children of a node on level h; first tells whether the
      next one is the first child of an apply. */
  function ReducedKids(dec: Decoder, ts: seq<Term>, h: nat, d: nat, first: bool): seq<Token>
    decreases ts, 1, 0
  {
    if ts == [] then []
    else (if Kept(h, d, first) then Reduced(dec, ts[0], h + 1, d) else []) + ReducedKids(dec, ts[1..], h, d, false)
  }

  /** The subterms that are cut off, from left to right. */
  function Skipped(dec: Decoder, t: Term, h: nat, d: nat): seq<Term>
    decreases t, 0, 0
  {
    SkippedKids(dec, t.args, h, d, IsApply(dec, t.tok))
  }

  function SkippedKids(dec: Decoder, ts: seq<Term>, h: nat, d: nat, first: bool): seq<Term>
    decreases ts, 1, 0
  {
    if ts == [] then []
    else (if Kept(h, d, first) then Skipped(dec, ts[0], h + 1, d) else [ts[0]]) + SkippedKids(dec, ts[1..], h, d, false)
  }

  // ---------------------------------------------------------------- schema trees

  /** The tree of a term. */
  function Tree(dec: Decoder, t: Term): Cmml
    decreases t, 0
  {
    NodeOf(dec, t.tok, Trees(dec, t.args))
  }

  function Trees(dec: Decoder, ts: seq<Term>): (r: seq<Cmml>)
    ensures |r| == |ts|
    decreases ts, 1
  {
    if ts == [] then [] else [Tree(dec, ts[0])] + Trees(dec, ts[1..])
  }

  /** The tree of a term with variables in place of what is cut off, numbered from n on. */
  function Schema(dec: Decoder, t: Term, h: nat, d: nat, n: nat): Cmml
    decreases t, 0, 0
  {
    NodeOf(dec, t.tok, SchemaKids(dec, t.args, h, d, IsApply(dec, t.tok), n))
  }

  function SchemaKids(dec: Decoder, ts: seq<Term>, h: nat, d: nat, first: bool, n: nat): (r: seq<Cmml>)
    ensures |r| == |ts|
    decreases ts, 1, 0
  {
    if ts == [] then []
    else if Kept(h, d, first) then
      [Schema(dec, ts[0], h + 1, d, n)] + SchemaKids(dec, ts[1..], h, d, false, n + |Skipped(dec, ts[0], h + 1, d)|)
    else
      [Qvar(n)] + SchemaKids(dec, ts[1..], h, d, false, n + 1)
  }

  /** c with every variable x_i replaced by subs[i - n]. */
  function Instantiate(c: Cmml, subs: seq<Cmml>, n: nat): Cmml
    decreases c, 0
  {
    match c
    case Qvar(i) => if n <= i < n + |subs| then subs[i - n] else c
    case Node(tag, text, children) => Node(tag, text, InstantiateAll(children, subs, n))
  }

  function InstantiateAll(cs: seq<Cmml>, subs: seq<Cmml>, n: nat): seq<Cmml>
    decreases cs, 1
  {
    if cs == [] then [] else [Instantiate(cs[0], subs, n)] + InstantiateAll(cs[1..], subs, n)
  }

  /** The variables of a tree, from left to right. */
  function Qvars(c: Cmml): seq<nat>
    decreases c, 0
  {
    match c
    case Qvar(i) => [i]
    case Node(_, _, children) => QvarsAll(children)
  }

  function QvarsAll(cs: seq<Cmml>): seq<nat>
    decreases cs, 1
  {
    if cs == [] then [] else Qvars(cs[0]) + QvarsAll(cs[1..])
  }

  /** The variables are numbered from left to right without gaps, one for each skipped term. */
  lemma {:induction false} QvarsNumbered(dec: Decoder, t: Term, h: nat, d: nat, n: nat)
    ensures var k := |Skipped(dec, t, h, d)|; Qvars(Schema(dec, t, h, d, n)) == seq(k, i requires 0 <= i < k => n + i)
    decreases t, 0
  {
    QvarsNumberedKids(dec, t.args, h, d, IsApply(dec, t.tok), n);
  }

  lemma {:induction false} QvarsNumberedKids(dec: Decoder, ts: seq<Term>, h: nat, d: nat, first: bool, n: nat)
    ensures var k := |SkippedKids(dec, ts, h, d, first)|;
            QvarsAll(SchemaKids(dec, ts, h, d, first, n)) == seq(k, i requires 0 <= i < k => n + i)
    decreases ts, 1
  {
    if ts != [] {
      var m := if Kept(h, d, first) then |Skipped(dec, ts[0], h + 1, d)| else 1;
      var cs := SchemaKids(dec, ts, h, d, first, n);
      assert cs[1..] == SchemaKids(dec, ts[1..], h, d, false, n + m);
      QvarsNumberedKids(dec, ts[1..], h, d, false, n + m);
      if Kept(h, d, first) {
        QvarsNumbered(dec, ts[0], h + 1, d, n);
      }
      var k := |SkippedKids(dec, ts[1..], h, d, false)|;
      assert Qvars(cs[0]) == seq(m, i requires 0 <= i < m => n + i);
      assert seq(m, i requires 0 <= i < m => n + i) + seq(k, i requires 0 <= i < k => n + m + i)
          == seq(m + k, i requires 0 <= i < m + k => n + i);
    }
  }

  /** subs holds the trees of the given terms from position k on. */
  ghost predicate TreesAt(dec: Decoder, subs: seq<Cmml>, k: nat, ts: seq<Term>)
  {
    k + |ts| <= |subs| && forall i | 0 <= i < |ts| :: subs[k + i] == Tree(dec, ts[i])
  }

  lemma TreesAtParts(dec: Decoder, subs: seq<Cmml>, k: nat, a: seq<Term>, b: seq<Term>)
    requires TreesAt(dec, subs, k, a + b)
    ensures TreesAt(dec, subs, k, a) && TreesAt(dec, subs, k + |a|, b)
  {
    hide Tree;
    forall i | 0 <= i < |a|
      ensures subs[k + i] == Tree(dec, a[i])
    {
      assert (a + b)[i] == a[i];
    }
    forall i | 0 <= i < |b|
      ensures subs[k + |a| + i] == Tree(dec, b[i])
    {
      assert (a + b)[|a| + i] == b[i];
    }
  }

  /** A schema generalises its term: putting the skipped subterms back rebuilds the whole tree. */
  lemma {:induction false} SchemaGeneralises(dec: Decoder, t: Term, h: nat, d: nat, n: nat, subs: seq<Cmml>, n0: nat)
    requires n0 <= n && TreesAt(dec, subs, n - n0, Skipped(dec, t, h, d))
    ensures Instantiate(Schema(dec, t, h, d, n), subs, n0) == Tree(dec, t)
    decreases t, 0
  {
    SchemaKidsGeneralise(dec, t.args, h, d, IsApply(dec, t.tok), n, subs, n0);
  }

  lemma {:induction false} SchemaKidsGeneralise(dec: Decoder, ts: seq<Term>, h: nat, d: nat, first: bool, n: nat,
                                                subs: seq<Cmml>, n0: nat)
    requires n0 <= n && TreesAt(dec, subs, n - n0, SkippedKids(dec, ts, h, d, first))
    ensures InstantiateAll(SchemaKids(dec, ts, h, d, first, n), subs, n0) == Trees(dec, ts)
    decreases ts, 1
  {
    hide Schema, Skipped, Tree, TreesAt;
    if ts != [] {
      var here := if Kept(h, d, first) then Skipped(dec, ts[0], h + 1, d) else [ts[0]];
      var cs := SchemaKids(dec, ts, h, d, first, n);
      assert cs[1..] == SchemaKids(dec, ts[1..], h, d, false, n + |here|);
      TreesAtParts(dec, subs, n - n0, here, SkippedKids(dec, ts[1..], h, d, false));
      SchemaKidsGeneralise(dec, ts[1..], h, d, false, n + |here|, subs, n0);
      if Kept(h, d, first) {
        SchemaGeneralises(dec, ts[0], h + 1, d, n, subs, n0);
      } else {
        OneTreeAt(dec, subs, n - n0, ts[0]);
      }
    }
  }

  lemma OneTreeAt(dec: Decoder, subs: seq<Cmml>, k: nat, t: Term)
    requires TreesAt(dec, subs, k, [t])
    ensures k < |subs| && subs[k] == Tree(dec, t)
  {
    assert subs[k + 0] == Tree(dec, [t][0]);
  }

  // ---------------------------------------------------------------- what a class shares

  /** A term with holes where it is cut off. */
  datatype Cut = Cut(tok: Token, kids: seq<Cut>) | Hole

  function CutOf(dec: Decoder, t: Term, h: nat, d: nat): Cut
    decreases t, 0, 0
  {
    Cut(t.tok, CutKids(dec, t.args, h, d, IsApply(dec, t.tok)))
  }

  function CutKids(dec: Decoder, ts: seq<Term>, h: nat, d: nat, first: bool): (r: seq<Cut>)
    ensures |r| == |ts|
    decreases ts, 1, 0
  {
    if ts == [] then []
    else [if Kept(h, d, first) then CutOf(dec, ts[0], h + 1, d) else Hole] + CutKids(dec, ts[1..], h, d, false)
  }

  /** The kept tokens determine the truncated term, and conversely. */
  lemma {:induction false} ReducedDeterminesCut(dec: Decoder, t: Term, t': Term, h: nat, d: nat, rest: seq<Token>,
                                                rest': seq<Token>)
    requires Ranked(t) && Ranked(t')
    ensures Reduced(dec, t, h, d) + rest == Reduced(dec, t', h, d) + rest' <==>
            CutOf(dec, t, h, d) == CutOf(dec, t', h, d) && rest == rest'
    decreases t, 0
  {
    var a, b := Reduced(dec, t, h, d) + rest, Reduced(dec, t', h, d) + rest';
    var ka, kb := ReducedKids(dec, t.args, h, d, IsApply(dec, t.tok)) + rest,
        ReducedKids(dec, t'.args, h, d, IsApply(dec, t'.tok)) + rest';
    assert a == [t.tok] + ka && b == [t'.tok] + kb;
    assert a[0] == t.tok && b[0] == t'.tok && a[1..] == ka && b[1..] == kb;
    if t.tok == t'.tok {
      KidsDetermineCut(dec, t.args, t'.args, h, d, IsApply(dec, t.tok), rest, rest');
    }
  }

  lemma {:induction false} KidsDetermineCut(dec: Decoder, ts: seq<Term>, ts': seq<Term>, h: nat, d: nat, first: bool,
                                            rest: seq<Token>, rest': seq<Token>)
    requires |ts| == |ts'| && (forall i | 0 <= i < |ts| :: Ranked(ts[i]) && Ranked(ts'[i]))
    ensures ReducedKids(dec, ts, h, d, first) + rest == ReducedKids(dec, ts', h, d, first) + rest' <==>
            CutKids(dec, ts, h, d, first) == CutKids(dec, ts', h, d, first) && rest == rest'
    decreases ts, 1
  {
    hide Reduced, CutOf, Ranked;
    if ts == [] {
      assert [] + rest == rest && [] + rest' == rest';
    } else {
      var ra, rb := ReducedKids(dec, ts[1..], h, d, false) + rest, ReducedKids(dec, ts'[1..], h, d, false) + rest';
      var ca, cb := CutKids(dec, ts, h, d, first), CutKids(dec, ts', h, d, first);
      assert ca[1..] == CutKids(dec, ts[1..], h, d, false) && cb[1..] == CutKids(dec, ts'[1..], h, d, false);
      assert ca == cb <==> ca[0] == cb[0] && ca[1..] == cb[1..] by {
        assert ca == [ca[0]] + ca[1..] && cb == [cb[0]] + cb[1..];
      }
      KidsDetermineCut(dec, ts[1..], ts'[1..], h, d, false, rest, rest');
      if Kept(h, d, first) {
        assert ReducedKids(dec, ts, h, d, first) + rest == Reduced(dec, ts[0], h + 1, d) + ra;
        assert ReducedKids(dec, ts', h, d, first) + rest' == Reduced(dec, ts'[0], h + 1, d) + rb;
        ReducedDeterminesCut(dec, ts[0], ts'[0], h + 1, d, ra, rb);
      } else {
        assert ReducedKids(dec, ts, h, d, first) + rest == ra && ReducedKids(dec, ts', h, d, first) + rest' == rb;
      }
    }
  }

  /** The truncated term determines the schema, whatever the cut-off that it comes from. */
  lemma {:induction false} CutDeterminesSchema(dec: Decoder, t: Term, t': Term, h: nat, d: nat, d': nat, n: nat)
    requires CutOf(dec, t, h, d) == CutOf(dec, t', h, d')
    ensures Schema(dec, t, h, d, n) == Schema(dec, t', h, d', n)
    ensures |Skipped(dec, t, h, d)| == |Skipped(dec, t', h, d')|
    decreases t, 0
  {
    KidsDetermineSchemas(dec, t.args, t'.args, h, d, d', IsApply(dec, t.tok), n);
  }

  lemma CutIsNode(dec: Decoder, t: Term, h: nat, d: nat)
    ensures CutOf(dec, t, h, d) != Hole
  {
  }

  lemma {:induction false} KidsDetermineSchemas(dec: Decoder, ts: seq<Term>, ts': seq<Term>, h: nat, d: nat, d': nat,
                                                first: bool, n: nat)
    requires CutKids(dec, ts, h, d, first) == CutKids(dec, ts', h, d', first)
    ensures SchemaKids(dec, ts, h, d, first, n) == SchemaKids(dec, ts', h, d', first, n)
    ensures |SkippedKids(dec, ts, h, d, first)| == |SkippedKids(dec, ts', h, d', first)|
    decreases ts, 1
  {
    hide Schema, CutOf, Skipped, CutKids, SchemaKids, SkippedKids;
    assert |ts| == |ts'| == |CutKids(dec, ts, h, d, first)|;
    if ts == [] {
      NoKids(dec, h, d, d', first, n);
    } else {
      CutKidsStep(dec, ts, ts', h, d, d', first);
      SkippedStep(dec, ts, h, d, first);
      SkippedStep(dec, ts', h, d', first);
      SchemaStep(dec, ts, h, d, first, n);
      SchemaStep(dec, ts', h, d', first, n);
      if Kept(h, d, first) {
        CutDeterminesSchema(dec, ts[0], ts'[0], h + 1, d, d', n);
        KidsDetermineSchemas(dec, ts[1..], ts'[1..], h, d, d', false, n + |Skipped(dec, ts[0], h + 1, d)|);
      } else {
        KidsDetermineSchemas(dec, ts[1..], ts'[1..], h, d, d', false, n + 1);
      }
    }
  }

  lemma NoKids(dec: Decoder, h: nat, d: nat, d': nat, first: bool, n: nat)
    ensures SchemaKids(dec, [], h, d, first, n) == SchemaKids(dec, [], h, d', first, n)
    ensures SkippedKids(dec, [], h, d, first) == SkippedKids(dec, [], h, d', first)
  {
  }

  lemma CutKidsStep(dec: Decoder, ts: seq<Term>, ts': seq<Term>, h: nat, d: nat, d': nat, first: bool)
    requires ts != [] && ts' != [] && CutKids(dec, ts, h, d, first) == CutKids(dec, ts', h, d', first)
    ensures Kept(h, d, first) <==> Kept(h, d', first)
    ensures Kept(h, d, first) ==> CutOf(dec, ts[0], h + 1, d) == CutOf(dec, ts'[0], h + 1, d')
    ensures CutKids(dec, ts[1..], h, d, false) == CutKids(dec, ts'[1..], h, d', false)
  {
    hide CutOf;
    var ca, cb := CutKids(dec, ts, h, d, first), CutKids(dec, ts', h, d', first);
    assert ca[0] == cb[0];
    assert ca[1..] == CutKids(dec, ts[1..], h, d, false) && cb[1..] == CutKids(dec, ts'[1..], h, d', false);
    CutIsNode(dec, ts[0], h + 1, d);
    CutIsNode(dec, ts'[0], h + 1, d');
  }

  /** The number of variables that the first child takes. */
  ghost function HeadSkipped(dec: Decoder, ts: seq<Term>, h: nat, d: nat, first: bool): nat
    requires ts != []
  {
    if Kept(h, d, first) then |Skipped(dec, ts[0], h + 1, d)| else 1
  }

  lemma SkippedStep(dec: Decoder, ts: seq<Term>, h: nat, d: nat, first: bool)
    requires ts != []
    ensures |SkippedKids(dec, ts, h, d, first)|
            == HeadSkipped(dec, ts, h, d, first) + |SkippedKids(dec, ts[1..], h, d, false)|
  {
    hide Skipped, Kept;
  }

  lemma SchemaStep(dec: Decoder, ts: seq<Term>, h: nat, d: nat, first: bool, n: nat)
    requires ts != []
    ensures SchemaKids(dec, ts, h, d, first, n)
         == [if Kept(h, d, first) then Schema(dec, ts[0], h + 1, d, n) else Qvar(n)]
            + SchemaKids(dec, ts[1..], h, d, false, n + HeadSkipped(dec, ts, h, d, first))
  {
    hide Schema, Skipped, Kept;
  }

  // ---------------------------------------------------------------- the schema of a class

  /** The key under which a formula is filed; a formula may be empty, and so may the cut-off. */
  ghost function Key(dec: Decoder, expr: seq<Token>, t: Term, d: nat): seq<Token> {
    if expr == [] || d == 0 then [] else Reduced(dec, t, 1, d)
  }

  /** The schema that stands for a formula, and what it leaves open. */
  ghost function SchemaOf(dec: Decoder, expr: seq<Token>, t: Term, d: nat): Cmml {
    if expr == [] || d == 0 then Qvar(0) else Schema(dec, t, 1, d, 1)
  }

  ghost function OpenParts(dec: Decoder, t: Term, d: nat): seq<Cmml> {
    if d == 0 then [Tree(dec, t)] else Trees(dec, Skipped(dec, t, 1, d))
  }

  /** Two formulae have the same key exactly when they agree down to the cut-off. */
  lemma SameKeySameCut(dec: Decoder, t: Term, t': Term, d: nat)
    requires Ranked(t) && Ranked(t') && d > 0
    ensures Key(dec, Preorder(t), t, d) == Key(dec, Preorder(t'), t', d) <==>
              CutOf(dec, t, 1, d) == CutOf(dec, t', 1, d)
  {
    ReducedDeterminesCut(dec, t, t', 1, d, [], []);
    assert Reduced(dec, t, 1, d) + [] == Reduced(dec, t, 1, d) && Reduced(dec, t', 1, d) + [] == Reduced(dec, t', 1, d);
  }

  lemma {:induction false} TreesAre(dec: Decoder, ts: seq<Term>)
    ensures TreesAt(dec, Trees(dec, ts), 0, ts)
    decreases ts
  {
    hide Tree;
    if ts != [] {
      TreesAre(dec, ts[1..]);
      forall i | 0 <= i < |ts|
        ensures Trees(dec, ts)[0 + i] == Tree(dec, ts[i])
      {
        if i > 0 {
          assert Trees(dec, ts[1..])[0 + (i - 1)] == Tree(dec, ts[1..][i - 1]);
        }
      }
    }
  }

  /** The schema of one formula matches every formula with the same key: its variables, each used
      once, stand for what was cut off, and putting that back gives the formula's tree. */
  lemma SchemaMatchesClass(dec: Decoder, t: Term, t': Term, d: nat)
    requires Ranked(t) && Ranked(t')
    requires Key(dec, Preorder(t), t, d) == Key(dec, Preorder(t'), t', d)
    ensures SchemaOf(dec, Preorder(t), t, d) == SchemaOf(dec, Preorder(t'), t', d)
    ensures var (schema, n) := (SchemaOf(dec, Preorder(t), t, d), if d == 0 then 0 else 1);
            var k := |OpenParts(dec, t', d)|;
            && Qvars(schema) == seq(k, i requires 0 <= i < k => n + i)
            && Instantiate(schema, OpenParts(dec, t', d), n) == Tree(dec, t')
  {
    if d > 0 {
      hide Reduced, Skipped, Schema, Tree, CutOf, Ranked, Preorder;
      SameKeySameCut(dec, t, t', d);
      CutDeterminesSchema(dec, t, t', 1, d, d, 1);
      TreesAre(dec, Skipped(dec, t', 1, d));
      SchemaGeneralises(dec, t', 1, d, 1, Trees(dec, Skipped(dec, t', 1, d)), 1);
      QvarsNumbered(dec, t', 1, d, 1);
    }
  }
}
