/** How a preorder sequence of tokens with arities arranges itself as a tree: which positions still
    wait for children, and whose children the others are. */
module TokenTrees {
  import opened Tokens
  import opened Terms
  import opened Schemas
  import opened Wrappers

  /** The positions that wait for a child, once for each child; the last one is next. */
  function Pending(p: seq<Token>): (r: seq<nat>)
    ensures forall i | 0 <= i < |r| :: r[i] < |p|
    decreases |p|
  {
    if p == [] then []
    else Rest(Pending(Init(p))) + seq(Last(p).arity as nat, _ => |p| - 1)
  }

  function Rest(pending: seq<nat>): seq<nat> {
    if pending == [] then [] else Init(pending)
  }

  /** The next token is the child of position i. */
  predicate NextBelow(p: seq<Token>, i: nat) {
    Pending(p) != [] && Last(Pending(p)) == i
  }

  /** The children of position i. */
  function Kids(p: seq<Token>, i: nat): (r: seq<nat>)
    ensures forall k | 0 <= k < |r| :: i < r[k] < |p|
    ensures |p| <= i + 1 ==> r == []
    decreases |p|
  {
    if p == [] then []
    else Kids(Init(p), i) + if NextBelow(Init(p), i) then [|p| - 1] else []
  }

  /** The tree below position i. */
  function Value(dec: Decoder, p: seq<Token>, i: nat): Cmml
    requires i < |p|
    decreases |p| - i
  {
    var ks := Kids(p, i);
    NodeOf(dec, p[i], seq(|ks|, k requires 0 <= k < |ks| => Value(dec, p, ks[k])))
  }

  // ---------------------------------------------------------------- whole terms

  lemma PendingSnoc(p: seq<Token>, tok: Token)
    ensures Pending(p + [tok]) == Rest(Pending(p)) + seq(tok.arity as nat, _ => |p|)
  {
    assert Init(p + [tok]) == p;
  }

  /** A whole term takes the place of one child. */
  lemma {:induction false} PendingAfter(pre: seq<Token>, t: Term)
    requires Ranked(t)
    ensures Pending(pre + Preorder(t)) == Rest(Pending(pre))
    decreases t, 0
  {
    hide Pending;
    PendingSnoc(pre, t.tok);
    assert pre + Preorder(t) == (pre + [t.tok]) + PreorderAll(t.args);
    var pending := Pending(pre + [t.tok]);
    PendingAfterAll(pre + [t.tok], t.args);
    assert pending[..|pending| - |t.args|] == Rest(Pending(pre));
  }

  lemma {:induction false} PendingAfterAll(pre: seq<Token>, ts: seq<Term>)
    requires (forall i | 0 <= i < |ts| :: Ranked(ts[i])) && |ts| <= |Pending(pre)|
    ensures Pending(pre + PreorderAll(ts)) == Pending(pre)[..|Pending(pre)| - |ts|]
    decreases ts, 1
  {
    hide Pending;
    if ts == [] {
      assert pre + [] == pre;
    } else {
      PendingAfter(pre, ts[0]);
      assert pre + PreorderAll(ts) == (pre + Preorder(ts[0])) + PreorderAll(ts[1..]);
      PendingAfterAll(pre + Preorder(ts[0]), ts[1..]);
    }
  }

  /** Where the terms begin. */
  function Offsets(o: nat, ts: seq<Term>): (r: seq<nat>)
    ensures |r| == |ts|
    decreases ts
  {
    if ts == [] then [] else [o] + Offsets(o + |Preorder(ts[0])|, ts[1..])
  }

  lemma KidsSnoc(p: seq<Token>, tok: Token, i: nat)
    ensures Kids(p + [tok], i) == Kids(p, i) + if NextBelow(p, i) then [|p|] else []
  {
    assert Init(p + [tok]) == p;
  }

  /** Within a term only its root is a child of an earlier position. */
  lemma {:induction false} KidsAfter(pre: seq<Token>, t: Term, i: nat)
    requires Ranked(t) && i < |pre|
    ensures Kids(pre + Preorder(t), i) == Kids(pre, i) + if NextBelow(pre, i) then [|pre|] else []
    decreases t, 0
  {
    hide Pending, Kids, NextBelow;
    KidsSnoc(pre, t.tok, i);
    PendingSnoc(pre, t.tok);
    assert pre + Preorder(t) == (pre + [t.tok]) + PreorderAll(t.args);
    NoNextAll(pre, t.tok, i);
    KidsAfterAll(pre + [t.tok], t.args, i, false);
    assert Kids(pre + [t.tok], i) + [] == Kids(pre + [t.tok], i);
  }

  /** The next n waiting entries all are i, or none of them is. */
  ghost predicate NextAll(p: seq<Token>, n: nat, i: nat, are: bool)
  {
    n <= |Pending(p)| && forall k | |Pending(p)| - n <= k < |Pending(p)| :: Pending(p)[k] == i <==> are
  }

  lemma NoNextAll(pre: seq<Token>, tok: Token, i: nat)
    requires i < |pre|
    ensures NextAll(pre + [tok], tok.arity, i, false)
  {
    hide Pending;
    PendingSnoc(pre, tok);
  }

  /** Terms become the children of the waiting entries. */
  lemma {:induction false} KidsAfterAll(pre: seq<Token>, ts: seq<Term>, i: nat, are: bool)
    requires (forall k | 0 <= k < |ts| :: Ranked(ts[k])) && i < |pre| && NextAll(pre, |ts|, i, are)
    ensures Kids(pre + PreorderAll(ts), i) == Kids(pre, i) + if are then Offsets(|pre|, ts) else []
    decreases ts, 1
  {
    hide *;
    if ts == [] {
      assert pre + [] == pre;
      NothingBegins(|pre|);
      assert Kids(pre, i) + [] == Kids(pre, i);
    } else {
      var w := Preorder(ts[0]);
      NextOfAll(pre, ts[0], |ts|, i, are);
      KidsAfter(pre, ts[0], i);
      FirstBegins(pre, ts);
      KidsAfterAll(pre + w, ts[1..], i, are);
      var others := if are then Offsets(|pre + w|, ts[1..]) else [];
      assert (Kids(pre, i) + [|pre|]) + others == Kids(pre, i) + ([|pre|] + others);
    }
  }

  lemma NothingBegins(o: nat)
    ensures PreorderAll([]) == [] && Offsets(o, []) == []
  {
  }

  lemma FirstBegins(pre: seq<Token>, ts: seq<Term>)
    requires ts != []
    ensures pre + PreorderAll(ts) == (pre + Preorder(ts[0])) + PreorderAll(ts[1..])
    ensures Offsets(|pre|, ts) == [|pre|] + Offsets(|pre + Preorder(ts[0])|, ts[1..])
  {
    hide *;
    PreorderOfFirst(ts);
    OffsetOfFirst(|pre|, ts);
    assert pre + (Preorder(ts[0]) + PreorderAll(ts[1..])) == (pre + Preorder(ts[0])) + PreorderAll(ts[1..]);
  }

  lemma PreorderOfFirst(ts: seq<Term>)
    requires ts != []
    ensures PreorderAll(ts) == Preorder(ts[0]) + PreorderAll(ts[1..])
  {
  }

  lemma OffsetOfFirst(o: nat, ts: seq<Term>)
    requires ts != []
    ensures Offsets(o, ts) == [o] + Offsets(o + |Preorder(ts[0])|, ts[1..])
  {
  }

  lemma NextOfAll(pre: seq<Token>, t: Term, n: nat, i: nat, are: bool)
    requires Ranked(t) && n > 0 && NextAll(pre, n, i, are)
    ensures (NextBelow(pre, i) <==> are) && NextAll(pre + Preorder(t), n - 1, i, are)
  {
    hide Pending;
    PendingAfter(pre, t);
  }

  /** A position that does not wait gets no more children. */
  lemma {:induction false} KidsStay(p: seq<Token>, post: seq<Token>, i: nat)
    requires i < |p| && i !in Pending(p)
    ensures Kids(p + post, i) == Kids(p, i) && i !in Pending(p + post)
    decreases |post|
  {
    hide Pending, Kids, NextBelow;
    if post == [] {
      assert p + [] == p;
    } else {
      var before := p + Init(post);
      KidsStay(p, Init(post), i);
      assert p + post == before + [Last(post)];
      KidsSnoc(before, Last(post), i);
      StillNotPending(before, Last(post), i);
      assert Kids(before, i) + [] == Kids(before, i);
    }
  }

  lemma StillNotPending(p: seq<Token>, tok: Token, i: nat)
    requires i < |p| && i !in Pending(p)
    ensures !NextBelow(p, i) && i !in Pending(p + [tok])
  {
    hide Pending;
    PendingSnoc(p, tok);
    var r := Rest(Pending(p));
    assert forall k | 0 <= k < |r| :: r[k] == Pending(p)[k];
  }

  /** The children of a term that stands anywhere in a sequence. */
  lemma KidsOfTerm(pre: seq<Token>, t: Term, post: seq<Token>)
    requires Ranked(t)
    ensures Kids(pre + Preorder(t) + post, |pre|) == Offsets(|pre| + 1, t.args)
  {
    hide Pending, Kids;
    var q := pre + [t.tok];
    PendingSnoc(pre, t.tok);
    assert Kids(q, |pre|) == [];
    KidsAfterAll(q, t.args, |pre|, true);
    assert [] + Offsets(|q|, t.args) == Offsets(|pre| + 1, t.args);
    assert pre + Preorder(t) == q + PreorderAll(t.args);
    PendingAfter(pre, t);
    KidsStay(pre + Preorder(t), post, |pre|);
  }

  /** The tree below the start of a term is the tree of the term. */
  lemma {:induction false} ValueIsTree(dec: Decoder, pre: seq<Token>, t: Term, post: seq<Token>)
    requires Ranked(t)
    ensures Value(dec, pre + Preorder(t) + post, |pre|) == Tree(dec, t)
    decreases t, 0
  {
    hide Kids, NodeOf;
    var p := pre + Preorder(t) + post;
    KidsOfTerm(pre, t, post);
    var ks := Kids(p, |pre|);
    assert p == (pre + [t.tok]) + PreorderAll(t.args) + post;
    ValuesAreTrees(dec, pre + [t.tok], t.args, post);
    assert p[|pre|] == t.tok;
    assert seq(|ks|, k requires 0 <= k < |ks| => Value(dec, p, ks[k])) == Trees(dec, t.args);
  }

  lemma {:induction false} ValuesAreTrees(dec: Decoder, pre: seq<Token>, ts: seq<Term>, post: seq<Token>)
    requires forall i | 0 <= i < |ts| :: Ranked(ts[i])
    ensures var p, ks := pre + PreorderAll(ts) + post, Offsets(|pre|, ts);
            forall k | 0 <= k < |ts| :: ks[k] < |p| && Value(dec, p, ks[k]) == Trees(dec, ts)[k]
    decreases ts, 1
  {
    hide Value, Tree, Preorder;
    if ts != [] {
      var w, rest := Preorder(ts[0]), PreorderAll(ts[1..]);
      var p := pre + PreorderAll(ts) + post;
      assert p == pre + w + (rest + post);
      assert p == (pre + w) + rest + post;
      ValueIsTree(dec, pre, ts[0], rest + post);
      ValuesAreTrees(dec, pre + w, ts[1..], post);
      forall k | 0 <= k < |ts|
        ensures Offsets(|pre|, ts)[k] < |p| && Value(dec, p, Offsets(|pre|, ts)[k]) == Trees(dec, ts)[k]
      {
        if k > 0 {
          assert Offsets(|pre|, ts)[k] == Offsets(|pre + w|, ts[1..])[k - 1];
          assert Trees(dec, ts)[k] == Trees(dec, ts[1..])[k - 1];
        }
      }
    }
  }
}
