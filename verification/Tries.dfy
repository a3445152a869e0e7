/** The formula index as a value: a trie whose edges carry tokens in memcmp order. */
module Tries {
  import opened Tokens
  import opened Terms
  import opened Wrappers

  /** A key and the node it leads to. */
  datatype Edge<+V> = Edge(tok: Token, node: V)

  datatype Trie = Leaf(id: nat, hits: nat) | Inner(kids: seq<Edge<Trie>>)

  /** A place in a trie: the tokens leading there and the subtrie found there. */
  datatype Spot = Spot(path: seq<Token>, node: Trie)

  ghost predicate Sorted<V>(kids: seq<Edge<V>>)
  {
    forall i, j | 0 <= i < j < |kids| :: kids[i].tok.Rank() < kids[j].tok.Rank()
  }

  /** Every path from t to a leaf is the concatenation of need codes, and keys are sorted. */
  ghost predicate WellFormed(t: Trie, need: nat)
    decreases t
  {
    match t
    case Leaf(_, _) => need == 0
    case Inner(kids) =>
      && need > 0
      && kids != []
      && Sorted(kids)
      && forall i | 0 <= i < |kids| :: WellFormed(kids[i].node, need - 1 + kids[i].tok.arity)
  }

  ghost predicate HasKey<V>(kids: seq<Edge<V>>, tok: Token)
  {
    exists i | 0 <= i < |kids| :: kids[i].tok == tok
  }

  ghost function KeyIndex<V>(kids: seq<Edge<V>>, tok: Token): (i: nat)
    requires HasKey(kids, tok)
    ensures i < |kids| && kids[i].tok == tok
  {
    var i :| 0 <= i < |kids| && kids[i].tok == tok;
    i
  }

  ghost function Child(t: Trie, tok: Token): (r: Option<Trie>)
    ensures r.Some? ==> r.value < t
  {
    if t.Inner? && HasKey(t.kids, tok) then Some(t.kids[KeyIndex(t.kids, tok)].node) else None
  }

  lemma ChildAt(t: Trie, i: nat)
    requires t.Inner? && Sorted(t.kids) && i < |t.kids|
    ensures Child(t, t.kids[i].tok) == Some(t.kids[i].node)
  {
    var k := KeyIndex(t.kids, t.kids[i].tok);
    assert !(k < i) && !(i < k);
  }

  /** Follow the tokens of w. */
  ghost function Descend(t: Trie, w: seq<Token>): Option<Trie>
    decreases |w|
  {
    if w == [] then Some(t)
    else match Child(t, w[0])
      case None => None
      case Some(c) => Descend(c, w[1..])
  }

  lemma {:induction false} DescendConcat(t: Trie, v: seq<Token>, w: seq<Token>)
    ensures Descend(t, v + w) ==
            if Descend(t, v).None? then None else Descend(Descend(t, v).value, w)
    decreases |v|
  {
    if v == [] {
      assert v + w == w;
    } else {
      assert (v + w)[1..] == v[1..] + w;
      if Child(t, v[0]).Some? {
        DescendConcat(Child(t, v[0]).value, v[1..], w);
      }
    }
  }

  ghost predicate IsLeafPath(t: Trie, p: seq<Token>)
  {
    Descend(t, p).Some? && Descend(t, p).value.Leaf?
  }

  ghost function LeafAt(t: Trie, p: seq<Token>): (leaf: Trie)
    requires IsLeafPath(t, p)
    ensures leaf.Leaf?
  {
    Descend(t, p).value
  }

  // ---------------------------------------------------------------- enumerations

  /** The leaves of t from left to right; paths start with pre. */
  ghost function Leaves(pre: seq<Token>, t: Trie): (r: seq<Spot>)
    ensures forall s | s in r :: s.node.Leaf?
    decreases t, 0
  {
    match t
    case Leaf(_, _) => [Spot(pre, t)]
    case Inner(kids) => LeavesFrom(pre, t, 0)
  }

  ghost function LeavesFrom(pre: seq<Token>, t: Trie, i: nat): (r: seq<Spot>)
    requires t.Inner? && i <= |t.kids|
    ensures forall s | s in r :: s.node.Leaf?
    decreases t, 0, |t.kids| - i
  {
    if i == |t.kids| then []
    else Leaves(pre + [t.kids[i].tok], t.kids[i].node) + LeavesFrom(pre, t, i + 1)
  }

  /** The places below t reached after exactly need codes, from left to right. */
  ghost function Spots(pre: seq<Token>, t: Trie, need: nat): seq<Spot>
    decreases t, 1, 0
  {
    if need == 0 then [Spot(pre, t)]
    else if t.Leaf? then []
    else SpotsFrom(pre, t, need, 0)
  }

  ghost function SpotsFrom(pre: seq<Token>, t: Trie, need: nat, i: nat): seq<Spot>
    requires t.Inner? && i <= |t.kids| && need > 0
    decreases t, 0, |t.kids| - i
  {
    if i == |t.kids| then []
    else
      var e := t.kids[i];
      Spots(pre + [e.tok], e.node, need - 1 + e.tok.arity) + SpotsFrom(pre, t, need, i + 1)
  }

  /** What holds of one spot found below t after need codes. */
  ghost predicate SpotOf(pre: seq<Token>, t: Trie, need: nat, n: nat, s: Spot)
    requires need <= n
  {
    && pre <= s.path
    && IsCode(s.path[|pre|..], need)
    && WellFormed(s.node, n - need)
    && Descend(t, s.path[|pre|..]) == Some(s.node)
  }

  lemma {:induction false} SpotsSound(pre: seq<Token>, t: Trie, need: nat, n: nat)
    requires WellFormed(t, n) && need <= n
    ensures forall s | s in Spots(pre, t, need) :: SpotOf(pre, t, need, n, s)
    decreases t, 1, 0
  {
    if need == 0 {
      assert pre[|pre|..] == [];
    } else {
      SpotsFromSound(pre, t, need, n, 0);
    }
  }

  lemma {:induction false} SpotsFromSound(pre: seq<Token>, t: Trie, need: nat, n: nat, i: nat)
    requires WellFormed(t, n) && t.Inner? && i <= |t.kids| && 0 < need <= n
    ensures forall s | s in SpotsFrom(pre, t, need, i) :: SpotOf(pre, t, need, n, s)
    decreases t, 0, |t.kids| - i
  {
    if i < |t.kids| {
      var e := t.kids[i];
      SpotsSound(pre + [e.tok], e.node, need - 1 + e.tok.arity, n - 1 + e.tok.arity);
      ChildAt(t, i);
      forall s | s in Spots(pre + [e.tok], e.node, need - 1 + e.tok.arity)
        ensures SpotOf(pre, t, need, n, s)
      {
        var w := s.path[|pre|..];
        assert w[0] == (pre + [e.tok])[|pre|];
        assert w[1..] == s.path[|pre + [e.tok]|..];
      }
      SpotsFromSound(pre, t, need, n, i + 1);
    }
  }

  /** A well-formed trie has no dead end. */
  lemma {:induction false} SpotsNonEmpty(pre: seq<Token>, t: Trie, need: nat, n: nat)
    requires WellFormed(t, n) && need <= n
    ensures Spots(pre, t, need) != []
    decreases t
  {
    if need > 0 {
      var e := t.kids[0];
      SpotsNonEmpty(pre + [e.tok], e.node, need - 1 + e.tok.arity, n - 1 + e.tok.arity);
    }
  }

  /** Every place reached by need codes is enumerated. */
  lemma {:induction false} SpotsComplete(pre: seq<Token>, t: Trie, need: nat, n: nat, w: seq<Token>)
    requires WellFormed(t, n) && need <= n && IsCode(w, need) && Descend(t, w).Some?
    ensures Spot(pre + w, Descend(t, w).value) in Spots(pre, t, need)
    decreases t, 1, 0
  {
    if w == [] {
      assert pre + w == pre;
    } else {
      var k := KeyIndex(t.kids, w[0]);
      assert pre + w == (pre + [w[0]]) + w[1..];
      SpotsComplete(pre + [w[0]], t.kids[k].node, need - 1 + w[0].arity, n - 1 + w[0].arity, w[1..]);
      SpotsFromContains(pre, t, need, 0, k, Spot(pre + w, Descend(t, w).value));
    }
  }

  lemma {:induction false} SpotsFromContains(pre: seq<Token>, t: Trie, need: nat, i: nat, k: nat, s: Spot)
    requires t.Inner? && i <= k < |t.kids| && need > 0
    requires s in Spots(pre + [t.kids[k].tok], t.kids[k].node, need - 1 + t.kids[k].tok.arity)
    ensures s in SpotsFrom(pre, t, need, i)
    decreases k - i
  {
    if i < k {
      SpotsFromContains(pre, t, need, i + 1, k, s);
    }
  }

  // ---------------------------------------------------------------- order

  /** v and w first differ at a token where v has the smaller rank. */
  predicate LexLess(v: seq<Token>, w: seq<Token>)
  {
    v != [] && w != [] &&
    (v[0].Rank() < w[0].Rank() || (v[0] == w[0] && LexLess(v[1..], w[1..])))
  }

  /** Paths, cut after d tokens, strictly increase: in particular no path occurs twice. */
  ghost predicate Increasing(ss: seq<Spot>, d: nat)
  {
    && (forall i | 0 <= i < |ss| :: d <= |ss[i].path|)
    && forall i, j | 0 <= i < j < |ss| :: LexLess(ss[i].path[d..], ss[j].path[d..])
  }

  lemma {:induction false} SpotsIncreasing(pre: seq<Token>, t: Trie, need: nat, n: nat)
    requires WellFormed(t, n) && need <= n
    ensures Increasing(Spots(pre, t, need), |pre|)
    decreases t, 1, 0
  {
    if need > 0 {
      SpotsFromIncreasing(pre, t, need, n, 0);
    }
  }

  lemma {:induction false} SpotsFromIncreasing(pre: seq<Token>, t: Trie, need: nat, n: nat, i: nat)
    requires WellFormed(t, n) && t.Inner? && i <= |t.kids| && 0 < need <= n
    ensures Increasing(SpotsFrom(pre, t, need, i), |pre|)
    ensures forall s | s in SpotsFrom(pre, t, need, i) ::
              |pre| < |s.path| && exists k | i <= k < |t.kids| :: s.path[|pre|] == t.kids[k].tok
    decreases t, 0, |t.kids| - i
  {
    if i < |t.kids| {
      var e, d := t.kids[i], |pre|;
      var first := Spots(pre + [e.tok], e.node, need - 1 + e.tok.arity);
      var rest := SpotsFrom(pre, t, need, i + 1);
      SpotsIncreasing(pre + [e.tok], e.node, need - 1 + e.tok.arity, n - 1 + e.tok.arity);
      SpotsSound(pre + [e.tok], e.node, need - 1 + e.tok.arity, n - 1 + e.tok.arity);
      SpotsFromIncreasing(pre, t, need, n, i + 1);
      forall s | s in first
        ensures d < |s.path| && s.path[d] == e.tok && s.path[d..][1..] == s.path[d + 1..]
      {
        assert s.path[d] == (pre + [e.tok])[d];
      }
      forall x, y | 0 <= x < y < |first + rest|
        ensures LexLess((first + rest)[x].path[d..], (first + rest)[y].path[d..])
      {
        if y < |first| {
          assert first[x] in first && first[y] in first;
          assert LexLess(first[x].path[d + 1..], first[y].path[d + 1..]);
        } else if x < |first| {
          assert first[x] in first && rest[y - |first|] in rest;
        } else {
          assert LexLess(rest[x - |first|].path[d..], rest[y - |first|].path[d..]);
        }
      }
    }
  }

  lemma {:induction false} LexLessIrreflexive(w: seq<Token>)
    ensures !LexLess(w, w)
    decreases |w|
  {
    if w != [] {
      LexLessIrreflexive(w[1..]);
    }
  }

  // ---------------------------------------------------------------- leaves

  lemma {:induction false} LeavesAreSpots(pre: seq<Token>, t: Trie, n: nat)
    requires WellFormed(t, n)
    ensures Leaves(pre, t) == Spots(pre, t, n)
    decreases t, 1, 0
  {
    if t.Inner? {
      LeavesFromAreSpots(pre, t, n, 0);
    }
  }

  lemma {:induction false} LeavesFromAreSpots(pre: seq<Token>, t: Trie, n: nat, i: nat)
    requires WellFormed(t, n) && t.Inner? && i <= |t.kids|
    ensures LeavesFrom(pre, t, i) == SpotsFrom(pre, t, n, i)
    decreases t, 0, |t.kids| - i
  {
    if i < |t.kids| {
      LeavesAreSpots(pre + [t.kids[i].tok], t.kids[i].node, n - 1 + t.kids[i].tok.arity);
      LeavesFromAreSpots(pre, t, n, i + 1);
    }
  }

  /** The leaf list holds each leaf path of the trie exactly once, in memcmp order. */
  lemma LeavesExact(t: Trie)
    requires WellFormed(t, 1)
    ensures forall s: Spot :: s in Leaves([], t) <==> Descend(t, s.path) == Some(s.node) && s.node.Leaf?
    ensures Increasing(Leaves([], t), 0)
    ensures forall s | s in Leaves([], t) :: IsCode(s.path, 1)
  {
    LeavesAreSpots([], t, 1);
    SpotsSound([], t, 1, 1);
    SpotsIncreasing([], t, 1, 1);
    forall s: Spot
      ensures s in Leaves([], t) <==> Descend(t, s.path) == Some(s.node) && s.node.Leaf?
      ensures s in Leaves([], t) ==> IsCode(s.path, 1)
    {
      assert s.path[0..] == s.path;
      if s in Leaves([], t) {
        assert SpotOf([], t, 1, 1, s);
      }
      if Descend(t, s.path) == Some(s.node) && s.node.Leaf? {
        LeafPathIsCode(t, 1, s.path);
        SpotsComplete([], t, 1, 1, s.path);
        assert [] + s.path == s.path;
      }
    }
  }

  lemma {:induction false} LeafPathIsCode(t: Trie, n: nat, w: seq<Token>)
    requires WellFormed(t, n) && Descend(t, w).Some? && Descend(t, w).value.Leaf?
    ensures IsCode(w, n)
    decreases |w|
  {
    if w != [] {
      var k := KeyIndex(t.kids, w[0]);
      LeafPathIsCode(t.kids[k].node, n - 1 + w[0].arity, w[1..]);
    }
  }

  /** The leaves below each of the given spots, one spot after the other. */
  ghost function LeavesUnder(pre: seq<Token>, ss: seq<Spot>): seq<Spot>
  {
    if ss == [] then []
    else Leaves(pre + ss[0].path, ss[0].node) + LeavesUnder(pre, ss[1..])
  }

  lemma {:induction false} LeavesUnderConcat(pre: seq<Token>, a: seq<Spot>, b: seq<Spot>)
    ensures LeavesUnder(pre, a + b) == LeavesUnder(pre, a) + LeavesUnder(pre, b)
    decreases |a|
  {
    if a == [] {
      assert a + b == b;
    } else {
      assert (a + b)[1..] == a[1..] + b;
      LeavesUnderConcat(pre, a[1..], b);
    }
  }

  /** Leaves can be enumerated in two stages: first need codes, then the rest. */
  lemma {:induction false} LeavesInStages(pre0: seq<Token>, pre: seq<Token>, t: Trie, need: nat, n: nat)
    requires WellFormed(t, n) && need <= n
    ensures Leaves(pre0 + pre, t) == LeavesUnder(pre0, Spots(pre, t, need))
    decreases t, 1, 0
  {
    if need == 0 {
      assert LeavesUnder(pre0, Spots(pre, t, need)[1..]) == [];
    } else {
      LeavesFromInStages(pre0, pre, t, need, n, 0);
    }
  }

  lemma {:induction false} LeavesFromInStages(pre0: seq<Token>, pre: seq<Token>, t: Trie, need: nat, n: nat, i: nat)
    requires WellFormed(t, n) && t.Inner? && i <= |t.kids| && 0 < need <= n
    ensures LeavesFrom(pre0 + pre, t, i) == LeavesUnder(pre0, SpotsFrom(pre, t, need, i))
    decreases t, 0, |t.kids| - i
  {
    if i < |t.kids| {
      var e := t.kids[i];
      assert pre0 + pre + [e.tok] == pre0 + (pre + [e.tok]);
      LeavesInStages(pre0, pre + [e.tok], e.node, need - 1 + e.tok.arity, n - 1 + e.tok.arity);
      LeavesFromInStages(pre0, pre, t, need, n, i + 1);
      LeavesUnderConcat(pre0, Spots(pre + [e.tok], e.node, need - 1 + e.tok.arity), SpotsFrom(pre, t, need, i + 1));
    }
  }
}
