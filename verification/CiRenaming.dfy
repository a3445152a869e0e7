/** Expressions up to the names of identifiers that the encoder renames. */
module CiRenaming {
  import opened Expressions
  import opened Numberings
  import opened Wrappers

  /** One-character ci elements are renamed unless they are the head of an application. The two
      exceptions for P are compared without the tag, so they never apply. */
  predicate IsRenamed(it: Item, renameCi: bool) {
    var meaning := it.e.Meaning();
    && renameCi && it.e.tag == "ci"
    && !(meaning == "#P" || meaning == "#p" || |meaning| > 2 + |it.e.tag| || it.head)
  }

  /** So what is renamed depends on the length of the name and the place alone, for P and p too. */
  lemma RenamedIff(it: Item, renameCi: bool)
    ensures IsRenamed(it, renameCi) <==> renameCi && it.e.tag == "ci" && |it.e.text| <= 1 && !it.head
  {
    if it.e.tag == "ci" {
      assert it.e.Meaning()[0] == 'c';
    }
  }

  datatype Sym = Name(name: string) | Fixed(meaning: string)

  function SymOf(it: Item, renameCi: bool): Sym {
    if IsRenamed(it, renameCi) then Name(it.e.Meaning()) else Fixed(it.e.Meaning())
  }

  /** The meaning of an expression as a tree. */
  datatype Shape = Shape(sym: Sym, kids: seq<Shape>)

  function ShapeOf(e: Expr, head: bool, renameCi: bool): Shape
    decreases e, 0
  {
    Shape(SymOf(Item(e, head), renameCi), ShapesOf(e.kids, e.tag == "apply", renameCi))
  }

  function ShapesOf(es: seq<Expr>, head: bool, renameCi: bool): (r: seq<Shape>)
    ensures |r| == |es|
    decreases es, 1
  {
    if es == [] then [] else [ShapeOf(es[0], head, renameCi)] + ShapesOf(es[1..], false, renameCi)
  }

  function RenameSym(s: Sym, f: map<string, string>): Sym {
    if s.Name? && s.name in f then Name(f[s.name]) else s
  }

  function Rename(s: Shape, f: map<string, string>): Shape
    decreases s, 0
  {
    Shape(RenameSym(s.sym, f), RenameAll(s.kids, f))
  }

  function RenameAll(ss: seq<Shape>, f: map<string, string>): (r: seq<Shape>)
    ensures |r| == |ss|
    decreases ss, 1
  {
    if ss == [] then [] else [Rename(ss[0], f)] + RenameAll(ss[1..], f)
  }

  ghost predicate Injective(f: map<string, string>)
  {
    forall x, y | x in f && y in f && f[x] == f[y] :: x == y
  }

  /** b is a with its names exchanged one for one. */
  ghost predicate AlphaEquivalent(a: Shape, b: Shape)
  {
    exists f: map<string, string> :: Injective(f) && NamesIn(Marks(a)) <= f.Keys && b == Rename(a, f)
  }

  // ---------------------------------------------------------------- preorder

  /** A symbol and the number of children. */
  datatype Mark = Mark(sym: Sym, arity: nat)

  function Marks(s: Shape): (r: seq<Mark>)
    decreases s, 0
  {
    [Mark(s.sym, |s.kids|)] + MarksAll(s.kids)
  }

  function MarksAll(ss: seq<Shape>): seq<Mark>
    decreases ss, 1
  {
    if ss == [] then [] else Marks(ss[0]) + MarksAll(ss[1..])
  }

  function NamesIn(ms: seq<Mark>): set<string> {
    set i | 0 <= i < |ms| && ms[i].sym.Name? :: ms[i].sym.name
  }

  /** The marks determine the tree. */
  lemma {:induction false} MarksDetermine(a: Shape, b: Shape, rest: seq<Mark>, rest': seq<Mark>)
    requires Marks(a) + rest == Marks(b) + rest'
    ensures a == b && rest == rest'
    decreases a, 0
  {
    hide MarksAll;
    var x, y := Marks(a) + rest, Marks(b) + rest';
    var ka, kb := MarksAll(a.kids) + rest, MarksAll(b.kids) + rest';
    assert x == [Mark(a.sym, |a.kids|)] + ka && y == [Mark(b.sym, |b.kids|)] + kb;
    assert x[0] == Mark(a.sym, |a.kids|) && y[0] == Mark(b.sym, |b.kids|) && x[1..] == ka && y[1..] == kb;
    MarksAllDetermine(a.kids, b.kids, rest, rest');
  }

  lemma {:induction false} MarksAllDetermine(xs: seq<Shape>, ys: seq<Shape>, rest: seq<Mark>, rest': seq<Mark>)
    requires |xs| == |ys| && MarksAll(xs) + rest == MarksAll(ys) + rest'
    ensures xs == ys && rest == rest'
    decreases xs, 1
  {
    hide Marks;
    if xs == [] {
      assert [] + rest == rest && [] + rest' == rest';
    } else {
      var ra, rb := MarksAll(xs[1..]) + rest, MarksAll(ys[1..]) + rest';
      assert MarksAll(xs) + rest == Marks(xs[0]) + ra && MarksAll(ys) + rest' == Marks(ys[0]) + rb;
      MarksDetermine(xs[0], ys[0], ra, rb);
      MarksAllDetermine(xs[1..], ys[1..], rest, rest');
      assert xs == [xs[0]] + xs[1..] && ys == [ys[0]] + ys[1..];
    }
  }

  function RenameMarks(ms: seq<Mark>, f: map<string, string>): seq<Mark> {
    seq(|ms|, i requires 0 <= i < |ms| => Mark(RenameSym(ms[i].sym, f), ms[i].arity))
  }

  lemma {:induction false} MarksOfRenamed(s: Shape, f: map<string, string>)
    ensures Marks(Rename(s, f)) == RenameMarks(Marks(s), f)
    decreases s, 0
  {
    MarksOfAllRenamed(s.kids, f);
  }

  lemma {:induction false} MarksOfAllRenamed(ss: seq<Shape>, f: map<string, string>)
    ensures MarksAll(RenameAll(ss, f)) == RenameMarks(MarksAll(ss), f)
    decreases ss, 1
  {
    if ss != [] {
      MarksOfRenamed(ss[0], f);
      MarksOfAllRenamed(ss[1..], f);
      assert RenameAll(ss, f)[1..] == RenameAll(ss[1..], f);
    }
  }

  function MarkOf(it: Item, renameCi: bool): Mark {
    Mark(SymOf(it, renameCi), |it.e.kids|)
  }

  function MarksOf(items: seq<Item>, renameCi: bool): seq<Mark> {
    seq(|items|, i requires 0 <= i < |items| => MarkOf(items[i], renameCi))
  }

  /** The marks of an expression are those of its subexpressions in visiting order. */
  lemma {:induction false} MarksOfFlat(e: Expr, head: bool, renameCi: bool)
    ensures Marks(ShapeOf(e, head, renameCi)) == MarksOf(Flat(e, head), renameCi)
    decreases e, 0
  {
    MarksOfFlatAll(e.kids, e.tag == "apply", renameCi);
  }

  lemma {:induction false} MarksOfFlatAll(es: seq<Expr>, head: bool, renameCi: bool)
    ensures MarksAll(ShapesOf(es, head, renameCi)) == MarksOf(FlatAll(es, head), renameCi)
    decreases es, 1
  {
    hide SymOf;
    if es != [] {
      MarksOfFlat(es[0], head, renameCi);
      MarksOfFlatAll(es[1..], false, renameCi);
      assert ShapesOf(es, head, renameCi)[1..] == ShapesOf(es[1..], false, renameCi);
    }
  }

  // ---------------------------------------------------------------- names in order

  function Names(ms: seq<Mark>): seq<string>
    decreases |ms|
  {
    if ms == [] then []
    else Names(Init(ms)) + if Last(ms).sym.Name? then [Last(ms).sym.name] else []
  }

  /** The same kinds of symbols, the same fixed meanings and the same numbers of children. */
  ghost predicate SameFrame(a: seq<Mark>, b: seq<Mark>)
  {
    && |a| == |b|
    && forall i | 0 <= i < |a| :: a[i].arity == b[i].arity
        && (if a[i].sym.Fixed? then a[i].sym == b[i].sym else b[i].sym.Name?)
  }

  /** Where the names stand: the name at i is number |Names(ms[..i])| of all. */
  lemma {:induction false} NameAt(ms: seq<Mark>, i: nat)
    requires i < |ms| && ms[i].sym.Name?
    ensures |Names(ms[..i])| < |Names(ms)| && Names(ms)[|Names(ms[..i])|] == ms[i].sym.name
    decreases |ms|
  {
    if i == |ms| - 1 {
      assert ms[..i] == Init(ms);
    } else {
      assert Init(ms)[..i] == ms[..i];
      NameAt(Init(ms), i);
    }
  }

  lemma {:induction false} SomeName(ms: seq<Mark>, k: nat) returns (i: nat)
    requires k < |Names(ms)|
    ensures i < |ms| && ms[i].sym.Name? && |Names(ms[..i])| == k && ms[i].sym.name == Names(ms)[k]
    decreases |ms|
  {
    var n := |ms| - 1;
    assert ms[..n] == Init(ms);
    if k == |Names(Init(ms))| {
      i := n;
    } else {
      i := SomeName(Init(ms), k);
      assert Init(ms)[..i] == ms[..i];
    }
  }

  lemma {:induction false} SameFrameNames(a: seq<Mark>, b: seq<Mark>)
    requires SameFrame(a, b)
    ensures |Names(a)| == |Names(b)|
    decreases |a|
  {
    if a != [] {
      SameFrameNames(Init(a), Init(b));
    }
  }

  /** Equality up to a bijection of names, in visiting order. */
  lemma AlphaIsPattern(a: Shape, b: Shape)
    ensures AlphaEquivalent(a, b) <==> SameFrame(Marks(a), Marks(b)) && SamePattern(Names(Marks(a)), Names(Marks(b)))
  {
    hide Marks, Names, NamesIn;
    if AlphaEquivalent(a, b) {
      var f: map<string, string> :| Injective(f) && NamesIn(Marks(a)) <= f.Keys && b == Rename(a, f);
      MarksOfRenamed(a, f);
      RenamingKeepsPattern(Marks(a), f);
    }
    if SameFrame(Marks(a), Marks(b)) && SamePattern(Names(Marks(a)), Names(Marks(b))) {
      var f := PatternRenames(Marks(a), Marks(b));
      MarksOfRenamed(a, f);
      assert Marks(Rename(a, f)) + [] == Marks(b) + [];
      MarksDetermine(Rename(a, f), b, [], []);
    }
  }

  lemma {:induction false} NamesOfRenamed(ms: seq<Mark>, f: map<string, string>)
    requires NamesIn(ms) <= f.Keys
    ensures forall k | 0 <= k < |Names(ms)| :: Names(ms)[k] in f
    ensures Names(RenameMarks(ms, f)) == seq(|Names(ms)|, k requires 0 <= k < |Names(ms)| => f[Names(ms)[k]])
    decreases |ms|
  {
    if ms != [] {
      assert forall i | 0 <= i < |ms| - 1 :: Init(ms)[i] == ms[i];
      assert NamesIn(Init(ms)) <= NamesIn(ms);
      NamesOfRenamed(Init(ms), f);
      assert Init(RenameMarks(ms, f)) == RenameMarks(Init(ms), f);
      if Last(ms).sym.Name? {
        assert Last(ms).sym.name in NamesIn(ms);
      }
    }
  }

  lemma RenamingKeepsPattern(ms: seq<Mark>, f: map<string, string>)
    requires Injective(f) && NamesIn(ms) <= f.Keys
    ensures SameFrame(ms, RenameMarks(ms, f)) && SamePattern(Names(ms), Names(RenameMarks(ms, f)))
  {
    NamesOfRenamed(ms, f);
    assert forall i | 0 <= i < |ms| && ms[i].sym.Name? :: ms[i].sym.name in NamesIn(ms);
  }

  lemma PatternRenames(a: seq<Mark>, b: seq<Mark>) returns (f: map<string, string>)
    requires SameFrame(a, b) && SamePattern(Names(a), Names(b))
    ensures Injective(f) && NamesIn(a) <= f.Keys && RenameMarks(a, f) == b
  {
    var xs, ys := Names(a), Names(b);
    f := PatternMap(xs, ys);
    forall i | 0 <= i < |a|
      ensures a[i].sym.Name? ==> a[i].sym.name in f
      ensures Mark(RenameSym(a[i].sym, f), a[i].arity) == b[i]
    {
      if a[i].sym.Name? {
        NameAt(a, i);
        NameAt(b, i);
        assert SameFrame(a[..i], b[..i]);
        SameFrameNames(a[..i], b[..i]);
      }
    }
    assert NamesIn(a) <= f.Keys;
    assert RenameMarks(a, f) == b;
  }

  lemma PatternMap(xs: seq<string>, ys: seq<string>) returns (f: map<string, string>)
    requires SamePattern(xs, ys)
    ensures Injective(f) && forall k | 0 <= k < |xs| :: xs[k] in f && f[xs[k]] == ys[k]
  {
    f := map x | x in xs :: ys[NumberOf(xs, x) - 1];
    forall k | 0 <= k < |xs|
      ensures xs[k] in f && f[xs[k]] == ys[k]
    {
      var j := NumberOf(xs, xs[k]) - 1;
      assert xs[j] == xs[k];
    }
  }
}
