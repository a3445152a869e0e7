/** Growing a trie by one edge at a time, and replacing a subtrie. */
module Grafts {
  import opened Tokens
  import opened Terms
  import opened Tries
  import opened Wrappers

  /** Keys are sorted in every node. */
  ghost predicate Tidy(t: Trie)
    decreases t
  {
    t.Inner? ==> Sorted(t.kids) && forall i | 0 <= i < |t.kids| :: Tidy(t.kids[i].node)
  }

  ghost function InsertAt(kids: seq<Edge<Trie>>, index: nat, e: Edge<Trie>): seq<Edge<Trie>>
    requires index <= |kids|
  {
    kids[..index] + [e] + kids[index..]
  }

  ghost function Toks<V>(kids: seq<Edge<V>>): (s: seq<Token>)
    ensures |s| == |kids|
  {
    seq(|kids|, i requires 0 <= i < |kids| => kids[i].tok)
  }

  /** There is an inner node at p, with room for a new key tok at index. */
  ghost predicate CanGraft(t: Trie, p: seq<Token>, index: nat, tok: Token)
  {
    && Tidy(t)
    && Descend(t, p).Some? && Descend(t, p).value.Inner?
    && var kids := Descend(t, p).value.kids;
       index <= |kids| && !HasKey(kids, tok) && forall x: Trie :: Sorted(InsertAt(kids, index, Edge(tok, x)))
  }

  /** t with a new edge to x under the node at p. */
  ghost function Graft(t: Trie, p: seq<Token>, index: nat, tok: Token, x: Trie): Trie
    requires CanGraft(t, p, index, tok)
    decreases |p|
  {
    if p == [] then Inner(InsertAt(t.kids, index, Edge(tok, x)))
    else
      var k := KeyIndex(t.kids, p[0]);
      Inner(t.kids[k := Edge(p[0], Graft(t.kids[k].node, p[1..], index, tok, x))])
  }

  lemma ChildUnique(t: Trie, tok: Token, i: nat)
    requires t.Inner? && Sorted(t.kids) && i < |t.kids| && t.kids[i].tok == tok
    ensures HasKey(t.kids, tok) && KeyIndex(t.kids, tok) == i && Child(t, tok) == Some(t.kids[i].node)
  {
    var k := KeyIndex(t.kids, tok);
    assert !(k < i) && !(i < k);
  }

  /** The children of a node after one child was exchanged. */
  lemma ChildAfterUpdate(t: Trie, tok: Token, c: Trie, other: Token)
    requires t.Inner? && Sorted(t.kids) && HasKey(t.kids, tok)
    ensures var t' := Inner(t.kids[KeyIndex(t.kids, tok) := Edge(tok, c)]);
            && Sorted(t'.kids) && Toks(t'.kids) == Toks(t.kids)
            && Child(t', other) == if other == tok then Some(c) else Child(t, other)
  {
    var k := KeyIndex(t.kids, tok);
    var kids' := t.kids[k := Edge(tok, c)];
    assert forall i | 0 <= i < |kids'| :: kids'[i].tok == t.kids[i].tok;
    if other != tok && HasKey(kids', other) {
      assert t.kids[KeyIndex(kids', other)].tok == other;
    }
    if other == tok {
      ChildUnique(Inner(kids'), tok, k);
    } else if HasKey(t.kids, other) {
      var j := KeyIndex(t.kids, other);
      assert kids'[j] == t.kids[j];
      ChildUnique(Inner(kids'), other, j);
    }
  }

  lemma ChildAfterInsert(t: Trie, index: nat, tok: Token, x: Trie, other: Token)
    requires t.Inner? && Sorted(t.kids) && index <= |t.kids| && !HasKey(t.kids, tok)
    requires Sorted(InsertAt(t.kids, index, Edge(tok, x)))
    ensures Child(Inner(InsertAt(t.kids, index, Edge(tok, x))), other) == if other == tok then Some(x)
              else Child(t, other)
  {
    var kids' := InsertAt(t.kids, index, Edge(tok, x));
    var t' := Inner(kids');
    assert kids'[index] == Edge(tok, x);
    if other != tok && HasKey(kids', other) {
      var j := KeyIndex(kids', other);
      assert t.kids[if j < index then j else j - 1] == kids'[j];
    }
    if other == tok {
      ChildUnique(t', tok, index);
    } else if HasKey(t.kids, other) {
      var j := KeyIndex(t.kids, other);
      var j' := if j < index then j else j + 1;
      assert kids'[j'] == t.kids[j];
      ChildUnique(t', other, j');
    }
  }

  lemma PrefixTail(p: seq<Token>, q: seq<Token>)
    requires p != [] && q != [] && p[0] == q[0]
    ensures p <= q <==> p[1..] <= q[1..]
    ensures p == q <==> p[1..] == q[1..]
  {
    assert p == [p[0]] + p[1..] && q == [q[0]] + q[1..];
  }

  /** A graft adds the paths through the new edge; nodes on the way keep their keys. */
  lemma {:induction false} GraftDescend(t: Trie, p: seq<Token>, index: nat, tok: Token, x: Trie, q: seq<Token>)
    requires CanGraft(t, p, index, tok)
    ensures var t' := Graft(t, p, index, tok, x);
            if p + [tok] <= q then Descend(t', q) == Descend(x, q[|p| + 1..])
            else if q == p then Descend(t', q) == Some(Inner(InsertAt(Descend(t, p).value.kids, index, Edge(tok, x))))
            else if q <= p then
              && Descend(t, q).Some? && Descend(t, q).value.Inner?
              && Descend(t', q).Some? && Descend(t', q).value.Inner?
              && Toks(Descend(t', q).value.kids) == Toks(Descend(t, q).value.kids)
            else Descend(t', q) == Descend(t, q)
    decreases |p|
  {
    var t' := Graft(t, p, index, tok, x);
    if p == [] {
      if q != [] {
        ChildAfterInsert(t, index, tok, x, q[0]);
        assert [tok] <= q <==> q[0] == tok;
        assert q[1..] == q[|p| + 1..];
      }
    } else {
      var k := KeyIndex(t.kids, p[0]);
      var c' := Graft(t.kids[k].node, p[1..], index, tok, x);
      if q == [] {
        ChildAfterUpdate(t, p[0], c', p[0]);
      } else {
        ChildAfterUpdate(t, p[0], c', q[0]);
        if q[0] == p[0] {
          GraftDescend(t.kids[k].node, p[1..], index, tok, x, q[1..]);
          assert (p + [tok])[1..] == p[1..] + [tok];
          PrefixTail(p + [tok], q);
          PrefixTail(q, p);
          assert |p| + 1 <= |q| ==> q[1..][|p[1..]| + 1..] == q[|p| + 1..];
        }
      }
    }
  }

  lemma {:induction false} GraftTidy(t: Trie, p: seq<Token>, index: nat, tok: Token, x: Trie)
    requires CanGraft(t, p, index, tok) && Tidy(x)
    ensures Tidy(Graft(t, p, index, tok, x))
    decreases |p|
  {
    if p != [] {
      var k := KeyIndex(t.kids, p[0]);
      GraftTidy(t.kids[k].node, p[1..], index, tok, x);
      ChildAfterUpdate(t, p[0], Graft(t.kids[k].node, p[1..], index, tok, x), p[0]);
    }
  }

  lemma {:induction false} WellFormedTidy(t: Trie, n: nat)
    requires WellFormed(t, n)
    ensures Tidy(t)
    decreases t
  {
    if t.Inner? {
      forall i | 0 <= i < |t.kids|
        ensures Tidy(t.kids[i].node)
      {
        WellFormedTidy(t.kids[i].node, n - 1 + t.kids[i].tok.arity);
      }
    }
  }

  // ---------------------------------------------------------------- growing along a word

  /** The arity count after the tokens of p, when it was n before. */
  function NeedAfter(p: seq<Token>, n: int): int {
    if p == [] then n else NeedAfter(p[1..], n - 1 + p[0].arity)
  }

  lemma {:induction false} NeedAfterSnoc(p: seq<Token>, tok: Token, n: int)
    ensures NeedAfter(p + [tok], n) == NeedAfter(p, n) - 1 + tok.arity
    decreases |p|
  {
    if p == [] {
      assert ([] + [tok])[1..] == [];
    } else {
      assert (p + [tok])[1..] == p[1..] + [tok];
      NeedAfterSnoc(p[1..], tok, n - 1 + p[0].arity);
    }
  }

  /** In a code the count stays positive until the last token, which brings it to zero. */
  lemma {:induction false} CodeNeeds(w: seq<Token>, n: nat, i: nat)
    requires IsCode(w, n) && i <= |w|
    ensures NeedAfter(w[..i], n) >= 0
    ensures NeedAfter(w[..i], n) == 0 <==> i == |w|
    decreases i
  {
    if i > 0 {
      assert w[..i][1..] == w[1..][..i - 1];
      CodeNeeds(w[1..], n - 1 + w[0].arity, i - 1);
    }
  }

  /** t is well-formed but for the inner node at p, which may have no children yet. */
  ghost predicate Growing(t: Trie, n: nat, p: seq<Token>)
    decreases |p|
  {
    && t.Inner? && n > 0 && Sorted(t.kids)
    && (forall i | 0 <= i < |t.kids| && (p == [] || t.kids[i].tok != p[0]) ::
        WellFormed(t.kids[i].node, n - 1 + t.kids[i].tok.arity))
    && (p != [] ==> HasKey(t.kids, p[0]) && Growing(t.kids[KeyIndex(t.kids, p[0])].node, n - 1 + p[0].arity, p[1..]))
  }

  lemma {:induction false} GrowingNode(t: Trie, n: nat, p: seq<Token>)
    requires Growing(t, n, p)
    ensures Tidy(t) && Descend(t, p).Some? && Descend(t, p).value.Inner? && NeedAfter(p, n) > 0
    ensures forall i | 0 <= i < |Descend(t, p).value.kids| ::
              var e := Descend(t, p).value.kids[i]; WellFormed(e.node, NeedAfter(p, n) - 1 + e.tok.arity)
    decreases |p|
  {
    if p != [] {
      GrowingNode(t.kids[KeyIndex(t.kids, p[0])].node, n - 1 + p[0].arity, p[1..]);
    }
    forall i | 0 <= i < |t.kids|
      ensures Tidy(t.kids[i].node)
    {
      if p == [] || t.kids[i].tok != p[0] {
        WellFormedTidy(t.kids[i].node, n - 1 + t.kids[i].tok.arity);
      } else {
        ChildUnique(t, p[0], i);
      }
    }
  }

  /** Going down to an existing inner child. */
  lemma {:induction false} GrowDown(t: Trie, n: nat, p: seq<Token>, tok: Token)
    requires Growing(t, n, p) && Descend(t, p + [tok]).Some? && NeedAfter(p + [tok], n) > 0
    ensures Growing(t, n, p + [tok])
    decreases |p|
  {
    if p == [] {
      var c := t.kids[KeyIndex(t.kids, tok)].node;
      assert (p + [tok])[1..] == [];
      assert WellFormed(c, n - 1 + tok.arity);
    } else {
      assert (p + [tok])[1..] == p[1..] + [tok];
      GrowDown(t.kids[KeyIndex(t.kids, p[0])].node, n - 1 + p[0].arity, p[1..], tok);
    }
  }

  /** A new empty inner child. */
  lemma {:induction false} GrowInner(t: Trie, n: nat, p: seq<Token>, index: nat, tok: Token)
    requires Growing(t, n, p) && CanGraft(t, p, index, tok) && NeedAfter(p + [tok], n) > 0
    ensures Growing(Graft(t, p, index, tok, Inner([])), n, p + [tok])
    decreases |p|
  {
    var x := Inner([]);
    if p == [] {
      GrowInnerHere(t, n, index, tok);
    } else {
      hide WellFormed, Sorted, HasKey;
      var c := GrowingBelow(t, n, p);
      var c' := Graft(c, p[1..], index, tok, x);
      assert (p + [tok])[1..] == p[1..] + [tok];
      GrowInner(c, n - 1 + p[0].arity, p[1..], index, tok);
      GrowingUpdate(t, n, p, p + [tok], c');
    }
  }

  lemma GrowingBelow(t: Trie, n: nat, p: seq<Token>) returns (c: Trie)
    requires Growing(t, n, p) && p != []
    ensures t.Inner? && HasKey(t.kids, p[0]) && c == t.kids[KeyIndex(t.kids, p[0])].node
    ensures n - 1 + p[0].arity >= 0 && Growing(c, n - 1 + p[0].arity, p[1..])
  {
    c := t.kids[KeyIndex(t.kids, p[0])].node;
  }

  /** The child on the way was exchanged for one that goes on to grow along p'. */
  lemma GrowingUpdate(t: Trie, n: nat, p: seq<Token>, p': seq<Token>, c': Trie)
    requires Growing(t, n, p) && p != [] && p' != [] && p'[0] == p[0]
    requires n - 1 + p[0].arity >= 0 && Growing(c', n - 1 + p[0].arity, p'[1..])
    ensures Growing(Inner(t.kids[KeyIndex(t.kids, p[0]) := Edge(p[0], c')]), n, p')
  {
    hide WellFormed, Token.Rank;
    var k := KeyIndex(t.kids, p[0]);
    var t' := Inner(t.kids[k := Edge(p[0], c')]);
    ChildUnique(t', p[0], k);
    assert forall i | 0 <= i < |t.kids| && i != k :: t'.kids[i] == t.kids[i];
  }

  lemma GrowInnerHere(t: Trie, n: nat, index: nat, tok: Token)
    requires Growing(t, n, []) && CanGraft(t, [], index, tok) && n - 1 + tok.arity > 0
    ensures Growing(Graft(t, [], index, tok, Inner([])), n, [] + [tok])
  {
    hide Token.Rank;
    var x := Inner([]);
    var t' := Graft(t, [], index, tok, x);
    assert ([] + [tok])[1..] == [];
    assert t'.kids[index] == Edge(tok, x);
    ChildUnique(t', tok, index);
    forall i | 0 <= i < |t'.kids| && t'.kids[i].tok != tok
      ensures WellFormed(t'.kids[i].node, n - 1 + t'.kids[i].tok.arity)
    {
      assert t'.kids[i] == t.kids[if i < index then i else i - 1];
    }
  }

  /** A new leaf closes the word. */
  lemma {:induction false} GrowLeaf(t: Trie, n: nat, p: seq<Token>, index: nat, tok: Token, id: nat)
    requires Growing(t, n, p) && CanGraft(t, p, index, tok) && NeedAfter(p + [tok], n) == 0
    ensures WellFormed(Graft(t, p, index, tok, Leaf(id, 0)), n)
    decreases |p|
  {
    hide Sorted;
    if p == [] {
      assert (p + [tok])[1..] == [] && (p + [tok])[0] == tok;
      GrowLeafHere(t, n, index, tok, id);
    } else {
      var x := Leaf(id, 0);
      var k := KeyIndex(t.kids, p[0]);
      var c' := Graft(t.kids[k].node, p[1..], index, tok, x);
      assert (p + [tok])[1..] == p[1..] + [tok];
      GrowLeaf(t.kids[k].node, n - 1 + p[0].arity, p[1..], index, tok, id);
      ChildAfterUpdate(t, p[0], c', p[0]);
      WellFormedButOne(t, n, p[0], c');
    }
  }

  lemma GrowLeafHere(t: Trie, n: nat, index: nat, tok: Token, id: nat)
    requires Growing(t, n, []) && CanGraft(t, [], index, tok) && n - 1 + tok.arity == 0
    ensures WellFormed(Graft(t, [], index, tok, Leaf(id, 0)), n)
  {
    var x := Leaf(id, 0);
    var t' := Graft(t, [], index, tok, x);
    forall i | 0 <= i < |t'.kids|
      ensures WellFormed(t'.kids[i].node, n - 1 + t'.kids[i].tok.arity)
    {
      if i == index {
        assert t'.kids[i] == Edge(tok, x);
      } else {
        assert t'.kids[i] == t.kids[if i < index then i else i - 1];
      }
    }
  }

  lemma WellFormedButOne(t: Trie, n: nat, tok: Token, c: Trie)
    requires t.Inner? && n > 0 && Sorted(t.kids) && HasKey(t.kids, tok)
    requires forall i | 0 <= i < |t.kids| && t.kids[i].tok != tok ::
               WellFormed(t.kids[i].node, n - 1 + t.kids[i].tok.arity)
    requires WellFormed(c, n - 1 + tok.arity)
    ensures WellFormed(Inner(t.kids[KeyIndex(t.kids, tok) := Edge(tok, c)]), n)
  {
    var k := KeyIndex(t.kids, tok);
    var kids' := t.kids[k := Edge(tok, c)];
    ChildAfterUpdate(t, tok, c, tok);
    forall i | 0 <= i < |kids'|
      ensures WellFormed(kids'[i].node, n - 1 + kids'[i].tok.arity)
    {
      if i != k && t.kids[i].tok == tok {
        ChildUnique(t, tok, i);
      }
    }
  }

  /** A node with a child is an ordinary node again. */
  lemma {:induction false} GrowClose(t: Trie, n: nat, p: seq<Token>)
    requires Growing(t, n, p) && Descend(t, p).Some? && Descend(t, p).value.Inner? && Descend(t, p).value.kids != []
    ensures WellFormed(t, n)
    decreases |p|
  {
    if p != [] {
      var k := KeyIndex(t.kids, p[0]);
      GrowClose(t.kids[k].node, n - 1 + p[0].arity, p[1..]);
      WellFormedButOne(t, n, p[0], t.kids[k].node);
      assert t.kids[k := Edge(p[0], t.kids[k].node)] == t.kids;
    }
  }

  // ---------------------------------------------------------------- replacing a leaf

  /** t with the subtrie at p exchanged. */
  ghost function Replace(t: Trie, p: seq<Token>, x: Trie): Trie
    requires Descend(t, p).Some?
    decreases |p|
  {
    if p == [] then x
    else
      var k := KeyIndex(t.kids, p[0]);
      Inner(t.kids[k := Edge(p[0], Replace(t.kids[k].node, p[1..], x))])
  }

  lemma {:induction false} ReplaceDescend(t: Trie, p: seq<Token>, x: Trie, q: seq<Token>)
    requires Tidy(t) && Descend(t, p).Some?
    ensures var t' := Replace(t, p, x);
            if p <= q then Descend(t', q) == Descend(x, q[|p|..])
            else if q <= p then
              && Descend(t, q).Some? && Descend(t, q).value.Inner?
              && Descend(t', q).Some? && Descend(t', q).value.Inner?
              && Toks(Descend(t', q).value.kids) == Toks(Descend(t, q).value.kids)
            else Descend(t', q) == Descend(t, q)
    decreases |p|
  {
    if p == [] {
      assert q[0..] == q;
    } else {
      var k := KeyIndex(t.kids, p[0]);
      var c' := Replace(t.kids[k].node, p[1..], x);
      if q == [] {
        ChildAfterUpdate(t, p[0], c', p[0]);
      } else {
        ChildAfterUpdate(t, p[0], c', q[0]);
        if q[0] == p[0] {
          ReplaceDescend(t.kids[k].node, p[1..], x, q[1..]);
          PrefixTail(p, q);
          PrefixTail(q, p);
          assert |p| <= |q| ==> q[1..][|p[1..]|..] == q[|p|..];
        }
      }
    }
  }

  lemma {:induction false} ReplaceWellFormed(t: Trie, n: nat, p: seq<Token>, id: nat, hits: nat)
    requires WellFormed(t, n) && Descend(t, p).Some? && Descend(t, p).value.Leaf?
    ensures WellFormed(Replace(t, p, Leaf(id, hits)), n)
    decreases |p|
  {
    if p != [] {
      var k := KeyIndex(t.kids, p[0]);
      ReplaceWellFormed(t.kids[k].node, n - 1 + p[0].arity, p[1..], id, hits);
      WellFormedButOne(t, n, p[0], Replace(t.kids[k].node, p[1..], Leaf(id, hits)));
    }
  }
}
