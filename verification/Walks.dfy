/** A suspended depth-first walk over a trie as a value: the stack of child positions, the
    places still to come, and the remaining Euler tour. */
module Walks {
  import opened Tokens
  import opened Tries
  import opened Wrappers

  /** A position among the children of a node. */
  datatype Cursor = Cursor(t: Trie, pos: nat) {
    ghost predicate Valid() {
      t.Inner? && pos < |t.kids|
    }

    ghost function Tok(): Token
      requires Valid()
    {
      t.kids[pos].tok
    }

    ghost function Kid(): Trie
      requires Valid()
    {
      t.kids[pos].node
    }
  }

  /** One step of the Euler tour: down an edge, or back up. */
  datatype Move = Enter(c: Cursor) | Leave(c: Cursor)

  /** s leads from root downwards, with terms still open on every level but possibly the last. */
  ghost predicate IsWalk(root: Trie, need: nat, s: seq<Cursor>)
    decreases |s|, 0
  {
    if need == 0 then false
    else if s == [] then WellFormed(root, need)
    else
      && IsWalk(root, need, Init(s))
      && Open(root, need, Init(s)) > 0
      && Last(s).t == Top(root, need, Init(s))
      && Last(s).Valid()
  }

  /** The node the walk stands at. */
  ghost function Top(root: Trie, need: nat, s: seq<Cursor>): (t: Trie)
    requires IsWalk(root, need, s)
    ensures Open(root, need, s) >= 0 && WellFormed(t, need - 1 + Open(root, need, s))
    decreases |s|, 2
  {
    if s == [] then root
    else
      assert WellFormed(Last(s).t, need - 1 + Open(root, need, Init(s))) by {
        var t := Top(root, need, Init(s));
      }
      Last(s).Kid()
  }

  /** The number of terms still open after the tokens on the stack. */
  ghost function Open(root: Trie, need: nat, s: seq<Cursor>): int
    requires IsWalk(root, need, s)
    decreases |s|, 1
  {
    if s == [] then 1 else Open(root, need, Init(s)) - 1 + Last(s).Tok().arity
  }

  ghost function Path(root: Trie, need: nat, s: seq<Cursor>): seq<Token>
    requires IsWalk(root, need, s)
    decreases |s|
  {
    if s == [] then [] else Path(root, need, Init(s)) + [Last(s).Tok()]
  }

  /** The places still to come after the current one. */
  ghost function Rest(root: Trie, need: nat, s: seq<Cursor>): seq<Spot>
    requires IsWalk(root, need, s)
    decreases |s|
  {
    if s == [] then []
    else
      var siblings := SpotsFrom(Path(root, need, Init(s)), Last(s).t, Open(root, need, Init(s)), Last(s).pos + 1);
      siblings + Rest(root, need, Init(s))
  }

  /** The places from the current node on. */
  ghost function FromHere(root: Trie, need: nat, s: seq<Cursor>): seq<Spot>
    requires IsWalk(root, need, s)
  {
    Spots(Path(root, need, s), Top(root, need, s), Open(root, need, s)) + Rest(root, need, s)
  }

  // ---------------------------------------------------------------- the Euler tour

  /** The moves below t, down to where c terms are closed. */
  ghost function Tour(t: Trie, c: nat): seq<Move>
    decreases t, 1, 0
  {
    if c == 0 || t.Leaf? then [] else TourFrom(t, c, 0)
  }

  /** The moves over the children of t from i on. */
  ghost function TourFrom(t: Trie, c: nat, i: nat): seq<Move>
    requires t.Inner? && i <= |t.kids| && c > 0
    decreases t, 0, |t.kids| - i
  {
    if i == |t.kids| then []
    else
      var here := Cursor(t, i);
      [Enter(here)] + Tour(t.kids[i].node, c - 1 + t.kids[i].tok.arity) + [Leave(here)] + TourFrom(t, c, i + 1)
  }

  /** The moves still to come once the walk below the current node is over. */
  ghost function Ahead(root: Trie, need: nat, s: seq<Cursor>): seq<Move>
    requires IsWalk(root, need, s)
    decreases |s|
  {
    if s == [] then []
    else
      [Leave(Last(s))] + TourFrom(Last(s).t, Open(root, need, Init(s)), Last(s).pos + 1) + Ahead(root, need, Init(s))
  }

  /** The moves from the current node on. */
  ghost function AheadHere(root: Trie, need: nat, s: seq<Cursor>): seq<Move>
    requires IsWalk(root, need, s)
  {
    Tour(Top(root, need, s), Open(root, need, s)) + Ahead(root, need, s)
  }

  // ---------------------------------------------------------------- the three moves of a walk

  /** c is a child position of the node that s leads to. */
  ghost predicate Extends(root: Trie, need: nat, s: seq<Cursor>, c: Cursor)
  {
    IsWalk(root, need, s) && Open(root, need, s) > 0 && c.t == Top(root, need, s) && c.Valid()
  }

  /** Where the moves take a walk, if each of them can be made where it comes. */
  ghost function After(root: Trie, need: nat, s: seq<Cursor>, moves: seq<Move>): Option<seq<Cursor>>
    decreases |moves|
  {
    if moves == [] then Some(s)
    else
      match After(root, need, s, Init(moves))
      case None => None
      case Some(w) =>
        match Last(moves)
        case Enter(c) => if Extends(root, need, w, c) then Some(w + [c]) else None
        case Leave(c) => if w != [] && Last(w) == c then Some(Init(w)) else None
  }

  lemma NoMoves(root: Trie, need: nat, s: seq<Cursor>)
    ensures After(root, need, s, []) == Some(s)
  {
  }

  lemma AfterSnoc(root: Trie, need: nat, s: seq<Cursor>, moves: seq<Move>, w: seq<Cursor>, m: Move)
    requires After(root, need, s, moves) == Some(w)
    ensures m.Enter? && Extends(root, need, w, m.c) ==> After(root, need, s, moves + [m]) == Some(w + [m.c])
    ensures m.Leave? && w != [] && Last(w) == m.c ==> After(root, need, s, moves + [m]) == Some(Init(w))
  {
    hide Extends;
    assert Init(moves + [m]) == moves && Last(moves + [m]) == m;
  }

  lemma {:induction false} AfterConcat(root: Trie, need: nat, s: seq<Cursor>, a: seq<Move>, w: seq<Cursor>,
                                       b: seq<Move>)
    requires After(root, need, s, a) == Some(w)
    ensures After(root, need, s, a + b) == After(root, need, w, b)
    decreases |b|
  {
    hide Extends;
    if b == [] {
      assert a + b == a;
    } else {
      AfterConcat(root, need, s, a, w, Init(b));
      assert Init(a + b) == a + Init(b) && Last(a + b) == Last(b);
    }
  }

  lemma ExtendWalk(root: Trie, need: nat, s: seq<Cursor>, c: Cursor)
    requires Extends(root, need, s, c)
    ensures Init(s + [c]) == s && Last(s + [c]) == c
    ensures IsWalk(root, need, s + [c])
    ensures Open(root, need, s + [c]) == Open(root, need, s) - 1 + c.Tok().arity
    ensures Top(root, need, s + [c]) == c.Kid()
    ensures Path(root, need, s + [c]) == Path(root, need, s) + [c.Tok()]
  {
    assert Init(s + [c]) == s && Last(s + [c]) == c;
  }

  lemma ExtendRest(root: Trie, need: nat, s: seq<Cursor>, c: Cursor)
    requires Extends(root, need, s, c)
    ensures IsWalk(root, need, s + [c])
    ensures Rest(root, need, s + [c])
         == SpotsFrom(Path(root, need, s), c.t, Open(root, need, s), c.pos + 1) + Rest(root, need, s)
  {
    ExtendWalk(root, need, s, c);
    hide WellFormed, Spots, SpotsFrom, Path, Open, Top, IsWalk, Init, Last;
  }

  lemma ExtendPlaces(root: Trie, need: nat, s: seq<Cursor>, c: Cursor)
    requires Extends(root, need, s, c)
    ensures IsWalk(root, need, s + [c])
    ensures SpotsFrom(Path(root, need, s), c.t, Open(root, need, s), c.pos) + Rest(root, need, s)
         == FromHere(root, need, s + [c])
  {
    ExtendWalk(root, need, s, c);
    ExtendRest(root, need, s, c);
    hide WellFormed, Spots, Path, Open, Top, IsWalk, Rest, Init, Last;
    var pre, n := Path(root, need, s), Open(root, need, s);
    var here, after := Spots(pre + [c.Tok()], c.Kid(), n - 1 + c.Tok().arity), SpotsFrom(pre, c.t, n, c.pos + 1);
    Regroup(here, after, [], [], Rest(root, need, s));
  }

  lemma ExtendTour(root: Trie, need: nat, s: seq<Cursor>, c: Cursor)
    requires Extends(root, need, s, c)
    ensures IsWalk(root, need, s + [c])
    ensures TourFrom(c.t, Open(root, need, s), c.pos) + Ahead(root, need, s)
            == [Enter(c)] + AheadHere(root, need, s + [c])
  {
    hide *;
    CanExtend(root, need, s, c);
    ExtendWalk(root, need, s, c);
    ExtendAhead(root, need, s, c);
    AheadFromHere(root, need, s + [c]);
    var n := Open(root, need, s);
    TourOfChild(c, n);
    var below, after := Tour(c.Kid(), n - 1 + c.Tok().arity), TourFrom(c.t, n, c.pos + 1);
    Regroup([Enter(c)], below, [Leave(c)], after, Ahead(root, need, s));
  }

  lemma CanExtend(root: Trie, need: nat, s: seq<Cursor>, c: Cursor)
    requires Extends(root, need, s, c)
    ensures IsWalk(root, need, s) && Open(root, need, s) > 0 && c.t.Inner? && c.pos < |c.t.kids| && c.Valid()
  {
  }

  lemma AheadFromHere(root: Trie, need: nat, s: seq<Cursor>)
    requires IsWalk(root, need, s)
    ensures Open(root, need, s) >= 0
    ensures AheadHere(root, need, s) == Tour(Top(root, need, s), Open(root, need, s)) + Ahead(root, need, s)
  {
    TopIsKid(root, need, s);
  }

  lemma TourOfChild(c: Cursor, n: nat)
    requires c.Valid() && n > 0
    ensures TourFrom(c.t, n, c.pos)
         == [Enter(c)] + Tour(c.Kid(), n - 1 + c.Tok().arity) + [Leave(c)] + TourFrom(c.t, n, c.pos + 1)
  {
    hide Tour;
  }

  lemma ExtendAhead(root: Trie, need: nat, s: seq<Cursor>, c: Cursor)
    requires Extends(root, need, s, c)
    ensures IsWalk(root, need, s + [c])
    ensures Ahead(root, need, s + [c]) == [Leave(c)] + TourFrom(c.t, Open(root, need, s), c.pos + 1)
            + Ahead(root, need, s)
  {
    ExtendWalk(root, need, s, c);
    hide IsWalk, Open, Top, WellFormed, TourFrom;
  }

  lemma Regroup<T>(a: seq<T>, b: seq<T>, c: seq<T>, d: seq<T>, e: seq<T>)
    ensures (a + b + c + d) + e == a + (b + (c + d + e))
    ensures (a + b) + e == a + (b + e)
  {
  }

  /** Going down to the first child. */
  lemma PushStep(root: Trie, need: nat, s: seq<Cursor>)
    requires IsWalk(root, need, s) && Open(root, need, s) > 0
    ensures var c := Cursor(Top(root, need, s), 0);
            && c.Valid() && Extends(root, need, s, c)
            && IsWalk(root, need, s + [c])
            && Open(root, need, s + [c]) == Open(root, need, s) - 1 + c.Tok().arity
            && Top(root, need, s + [c]) == c.Kid()
            && FromHere(root, need, s + [c]) == FromHere(root, need, s)
            && AheadHere(root, need, s) == [Enter(c)] + AheadHere(root, need, s + [c])
  {
    var t := Top(root, need, s);
    assert WellFormed(t, need - 1 + Open(root, need, s)) && t.Inner?;
    var c := Cursor(t, 0);
    ExtendWalk(root, need, s, c);
    ExtendPlaces(root, need, s, c);
    ExtendTour(root, need, s, c);
  }

  /** Going on to the next sibling. */
  lemma AdvanceStep(root: Trie, need: nat, s: seq<Cursor>)
    requires IsWalk(root, need, s) && s != [] && Last(s).pos + 1 < |Last(s).t.kids|
    ensures var c := Cursor(Last(s).t, Last(s).pos + 1);
            var s' := Init(s) + [c];
            && c.Valid() && Extends(root, need, Init(s), c)
            && IsWalk(root, need, s')
            && Open(root, need, s') == Open(root, need, s) + c.Tok().arity - Last(s).Tok().arity
            && Top(root, need, s') == c.Kid()
            && FromHere(root, need, s') == Rest(root, need, s)
            && Ahead(root, need, s) == [Leave(Last(s)), Enter(c)] + AheadHere(root, need, s')
  {
    var c := Cursor(Last(s).t, Last(s).pos + 1);
    ExtendWalk(root, need, Init(s), c);
    ExtendPlaces(root, need, Init(s), c);
    AdvanceTour(root, need, s);
  }

  lemma AdvanceTour(root: Trie, need: nat, s: seq<Cursor>)
    requires IsWalk(root, need, s) && s != [] && Last(s).pos + 1 < |Last(s).t.kids|
    ensures var s' := Init(s) + [Cursor(Last(s).t, Last(s).pos + 1)];
            && IsWalk(root, need, s')
            && Ahead(root, need, s) == [Leave(Last(s)), Enter(Last(s'))] + AheadHere(root, need, s')
  {
    var c := Cursor(Last(s).t, Last(s).pos + 1);
    ExtendTour(root, need, Init(s), c);
    var from := TourFrom(c.t, Open(root, need, Init(s)), c.pos);
    assert Last(Init(s) + [c]) == c;
    assert [Leave(Last(s))] + from + Ahead(root, need, Init(s))
           == [Leave(Last(s))] + (from + Ahead(root, need, Init(s)));
    assert [Leave(Last(s))] + ([Enter(c)] + AheadHere(root, need, Init(s) + [c]))
        == [Leave(Last(s)), Enter(c)] + AheadHere(root, need, Init(s) + [c]);
  }

  /** Going back up from the last sibling. */
  lemma PopStep(root: Trie, need: nat, s: seq<Cursor>)
    requires IsWalk(root, need, s) && s != [] && Last(s).pos + 1 == |Last(s).t.kids|
    ensures IsWalk(root, need, Init(s))
    ensures Open(root, need, Init(s)) == Open(root, need, s) - (Last(s).Tok().arity as int - 1)
    ensures Rest(root, need, Init(s)) == Rest(root, need, s)
    ensures Ahead(root, need, s) == [Leave(Last(s))] + Ahead(root, need, Init(s))
  {
  }

  /** A walk that has not begun stands at the root with one open term. */
  lemma StartStep(root: Trie, need: nat)
    requires IsWalk(root, need, [])
    ensures Open(root, need, []) == 1 && Top(root, need, []) == root
    ensures FromHere(root, need, []) == Spots([], root, 1) && Spots([], root, 1) != []
    ensures AheadHere(root, need, []) == Tour(root, 1)
  {
    PushStep(root, need, []);
    SpotsNonEmpty([], root, 1, need);
  }

  /** With no term open the current node is the next place. */
  lemma CompleteStep(root: Trie, need: nat, s: seq<Cursor>)
    requires IsWalk(root, need, s) && s != [] && Open(root, need, s) == 0
    ensures FromHere(root, need, s) == [Spot(Path(root, need, s), Last(s).Kid())] + Rest(root, need, s)
    ensures AheadHere(root, need, s) == Ahead(root, need, s)
  {
    assert Tour(Top(root, need, s), 0) == [];
  }

  /** A walk that is over has no place and no move left. */
  lemma FinishStep(root: Trie, need: nat)
    requires IsWalk(root, need, [])
    ensures Rest(root, need, []) == [] && Ahead(root, need, []) == []
  {
  }

  lemma TopIsKid(root: Trie, need: nat, s: seq<Cursor>)
    requires IsWalk(root, need, s)
    ensures Open(root, need, s) >= 0
    ensures s != [] ==> Last(s).Valid() && Top(root, need, s) == Last(s).Kid()
  {
    var t := Top(root, need, s);
  }

  lemma {:induction false} PathTokens(root: Trie, need: nat, s: seq<Cursor>)
    requires IsWalk(root, need, s)
    ensures |Path(root, need, s)| == |s|
    ensures forall i | 0 <= i < |s| :: s[i].Valid() && Path(root, need, s)[i] == s[i].Tok()
    decreases |s|
  {
    if s != [] {
      PathTokens(root, need, Init(s));
    }
  }
}
