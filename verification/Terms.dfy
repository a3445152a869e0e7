/** Terms and their preorder codes. A token announces how many children follow it, so a code
    can be parsed without brackets and no code is a proper prefix of another. */
module Terms {
  import opened Tokens
  import opened Wrappers

  datatype Term = Term(tok: Token, args: seq<Term>)

  /** Every token announces the number of children it has. */
  ghost predicate Ranked(t: Term)
  {
    |t.args| == t.tok.arity && forall i | 0 <= i < |t.args| :: Ranked(t.args[i])
  }

  function Preorder(t: Term): (w: seq<Token>)
    ensures w != [] && w[0] == t.tok
    decreases t, 0
  {
    [t.tok] + PreorderAll(t.args)
  }

  function PreorderAll(ts: seq<Term>): seq<Token>
    decreases ts, 1
  {
    if ts == [] then [] else Preorder(ts[0]) + PreorderAll(ts[1..])
  }

  /** w is the concatenation of exactly need codes. */
  predicate IsCode(w: seq<Token>, need: nat)
  {
    if w == [] then need == 0
    else need > 0 && IsCode(w[1..], need - 1 + w[0].arity)
  }

  /** The length of the shortest prefix of w that holds need codes. */
  function FirstCode(w: seq<Token>, need: nat): (r: Option<nat>)
    ensures r.Some? ==> r.value <= |w| && IsCode(w[..r.value], need)
  {
    if need == 0 then Some(0)
    else if w == [] then None
    else
      var r := FirstCode(w[1..], need - 1 + w[0].arity);
      if r.None? then None
      else
        assert w[..r.value + 1][1..] == w[1..][..r.value];
        Some(r.value + 1)
  }

  /** Codes are prefix-free: a code at the front of w is the one FirstCode finds. */
  lemma {:induction false} CodePrefixUnique(w: seq<Token>, n: nat, need: nat)
    requires n <= |w| && IsCode(w[..n], need)
    ensures FirstCode(w, need) == Some(n)
    decreases n
  {
    if n > 0 {
      assert w[..n][1..] == w[1..][..n - 1];
      CodePrefixUnique(w[1..], n - 1, need - 1 + w[0].arity);
    }
  }

  lemma {:induction false} CodeConcat(v: seq<Token>, w: seq<Token>, m: nat, n: nat)
    requires IsCode(v, m) && IsCode(w, n)
    ensures IsCode(v + w, m + n)
    decreases |v|
  {
    if v == [] {
      assert v + w == w;
    } else {
      assert (v + w)[1..] == v[1..] + w;
      CodeConcat(v[1..], w, m - 1 + v[0].arity, n);
    }
  }

  lemma {:induction false} PreorderAllIsCode(ts: seq<Term>)
    requires forall i | 0 <= i < |ts| :: Ranked(ts[i])
    ensures IsCode(PreorderAll(ts), |ts|)
    decreases ts
  {
    if ts != [] {
      PreorderAllIsCode(ts[0].args);
      var w := Preorder(ts[0]);
      assert w[1..] == PreorderAll(ts[0].args);
      PreorderAllIsCode(ts[1..]);
      CodeConcat(w, PreorderAll(ts[1..]), 1, |ts| - 1);
    }
  }

  /** The converse: every code is the preorder of exactly one list of ranked terms. */
  lemma {:induction false} CodeIsPreorder(w: seq<Token>, need: nat) returns (ts: seq<Term>)
    requires IsCode(w, need)
    ensures |ts| == need && PreorderAll(ts) == w
    ensures forall i | 0 <= i < |ts| :: Ranked(ts[i])
    decreases |w|
  {
    if w == [] {
      ts := [];
    } else {
      var n := w[0].arity;
      var rest := CodeIsPreorder(w[1..], need - 1 + n);
      var t := Term(w[0], rest[..n]);
      ts := [t] + rest[n..];
      assert ts[1..] == rest[n..];
      PreorderAllSplit(rest, n);
    }
  }

  lemma {:induction false} PreorderAllSplit(ts: seq<Term>, n: nat)
    requires n <= |ts|
    ensures PreorderAll(ts) == PreorderAll(ts[..n]) + PreorderAll(ts[n..])
    decreases n
  {
    if n == 0 {
      assert ts[..0] == [] && ts[0..] == ts;
    } else {
      assert ts[..n][1..] == ts[1..][..n - 1];
      assert ts[1..][n - 1..] == ts[n..];
      PreorderAllSplit(ts[1..], n - 1);
    }
  }

  /** w codes one term exactly when the arity count says so. */
  lemma CodeIffTerm(w: seq<Token>)
    ensures IsCode(w, 1) <==> exists t: Term :: Ranked(t) && Preorder(t) == w
  {
    if IsCode(w, 1) {
      var ts := CodeIsPreorder(w, 1);
      assert ts == [ts[0]] && ts[1..] == [];
      assert Ranked(ts[0]) && Preorder(ts[0]) == w;
    }
    forall t: Term | Ranked(t) && Preorder(t) == w
      ensures IsCode(w, 1)
    {
      PreorderAllIsCode([t]);
      assert [t][1..] == [];
      assert PreorderAll([t]) == w;
    }
  }

  /** A code is the preorder of one term only, also when something follows. */
  lemma {:induction false} PreorderUnique(t: Term, t': Term, rest: seq<Token>, rest': seq<Token>)
    requires Ranked(t) && Ranked(t') && Preorder(t) + rest == Preorder(t') + rest'
    ensures t == t' && rest == rest'
    decreases t, 0
  {
    hide PreorderAll;
    var w, below, below' := Preorder(t) + rest, PreorderAll(t.args) + rest, PreorderAll(t'.args) + rest';
    assert w == [t.tok] + below && w == [t'.tok] + below';
    assert w[0] == t.tok == t'.tok && w[1..] == below == below';
    PreorderAllUnique(t.args, t'.args, rest, rest');
  }

  lemma {:induction false} PreorderAllUnique(ts: seq<Term>, ts': seq<Term>, rest: seq<Token>, rest': seq<Token>)
    requires |ts| == |ts'| && (forall i | 0 <= i < |ts| :: Ranked(ts[i]) && Ranked(ts'[i]))
    requires PreorderAll(ts) + rest == PreorderAll(ts') + rest'
    ensures ts == ts' && rest == rest'
    decreases ts, 1
  {
    hide Preorder, Ranked;
    if ts == [] {
      assert [] + rest == rest && [] + rest' == rest';
    } else {
      var more, more' := PreorderAll(ts[1..]) + rest, PreorderAll(ts'[1..]) + rest';
      assert PreorderAll(ts) + rest == Preorder(ts[0]) + more;
      assert PreorderAll(ts') + rest' == Preorder(ts'[0]) + more';
      PreorderUnique(ts[0], ts'[0], more, more');
      PreorderAllUnique(ts[1..], ts'[1..], rest, rest');
      assert ts == [ts[0]] + ts[1..] && ts' == [ts'[0]] + ts'[1..];
    }
  }
}
