/** The builder that keeps a Content MathML tree in step with a depth-first walk over the index. */
module CmmlTokenBuilders {
  import opened Tokens
  import opened Terms
  import opened Schemas
  import opened TokenTrees
  import opened Wrappers

  class CmmlToken {
    var tag: string
    var textContent: string
    var parentNode: CmmlToken?
    var childNodes: seq<CmmlToken>

    constructor NewRoot()
      ensures tag == "" && textContent == "" && parentNode == null && childNodes == []
    {
      tag, textContent, parentNode, childNodes := "", "", null, [];
    }

    method NewChildNode() returns (result: CmmlToken)
      modifies this`childNodes
      ensures fresh(result) && childNodes == old(childNodes) + [result]
      ensures result.tag == "" && result.textContent == "" && result.parentNode == this && result.childNodes == []
    {
      result := new CmmlToken.NewRoot();
      childNodes := childNodes + [result];
      result.parentNode := this;
    }

    method PopLastChild()
      requires childNodes != []
      modifies this`childNodes
      ensures childNodes == old(Init(childNodes))
    {
      childNodes := Init(childNodes);
    }
  }

  ghost function At(nodes: seq<CmmlToken>, ks: seq<nat>): (r: seq<CmmlToken>)
    requires forall k | 0 <= k < |ks| :: ks[k] < |nodes|
    ensures |r| == |ks|
  {
    seq(|ks|, k requires 0 <= k < |ks| => nodes[ks[k]])
  }

  datatype Fields = Fields(tag: string, text: string, parent: CmmlToken?, kids: seq<CmmlToken>)

  ghost function FieldsOf(n: CmmlToken): Fields
    reads n
  {
    Fields(n.tag, n.textContent, n.parentNode, n.childNodes)
  }

  /** The fields of the node at position i, as the path asks for. */
  ghost predicate Good(dec: Decoder, path: seq<Token>, nodes: seq<CmmlToken>, i: nat, f: Fields)
    requires i < |path| == |nodes|
  {
    var c := NodeOf(dec, path[i], []);
    && f.tag == c.tag && f.text == c.text
    && f.kids == At(nodes, Kids(path, i))
    && f.parent == ParentAt(path, nodes, i)
  }

  ghost function ParentAt(path: seq<Token>, nodes: seq<CmmlToken>, i: nat): CmmlToken?
    requires i < |path| == |nodes|
  {
    if Pending(path[..i]) == [] then null else nodes[Last(Pending(path[..i]))]
  }

  /** Every position but the first finds a node waiting for a child. */
  ghost predicate Buildable(p: seq<Token>)
  {
    forall i | 0 < i < |p| :: Pending(p[..i]) != []
  }

  /** The decoder asserts that a meaning contains a separator. */
  predicate HasSeparator(dec: Decoder, tok: Token) {
    HashAt(dec(tok.id), 0) < |dec(tok.id)|
  }

  class CmmlTokenBuilder {
    const decoder: Decoder
    var root: CmmlToken?
    var futureParents: seq<CmmlToken>
    var tokens: seq<CmmlToken>
    /** The tokens pushed and not popped. */
    ghost var path: seq<Token>

    ghost predicate Holds(i: nat)
      reads this, tokens
      requires i < |path| == |tokens|
    {
      Good(decoder, path, tokens, i, FieldsOf(tokens[i]))
    }

    /** The path alone determines the stacks and the shape of the tree. */
    ghost predicate Valid()
      reads this, tokens
    {
      && |tokens| == |path| && Buildable(path)
      && (forall i, j | 0 <= i < j < |tokens| :: tokens[i] != tokens[j])
      && futureParents == At(tokens, Pending(path))
      && root == (if path == [] then null else tokens[0])
      && forall i | 0 <= i < |tokens| :: Holds(i)
    }

    constructor (decoder: Decoder)
      ensures Valid() && path == [] && this.decoder == decoder
    {
      this.decoder, root, futureParents, tokens, path := decoder, null, [], [], [];
    }

    /** Adds a node below the node that waits for a child, or the root. */
    method PushToken(encodedToken: Token)
      requires Valid() && (path == [] || Pending(path) != []) && HasSeparator(decoder, encodedToken)
      modifies this, tokens
      ensures Valid() && path == old(path) + [encodedToken]
      ensures |tokens| == |old(tokens)| + 1 && old(tokens) <= tokens && fresh(Last(tokens))
    {
      hide Pending, Kids, NodeOf, Buildable;
      ghost var n, path0 := |path|, path;
      PendingSnoc(path, encodedToken);
      var token: CmmlToken;
      if futureParents == [] {
        assert root == null;
        token := new CmmlToken.NewRoot();
        root := token;
      } else {
        token := Last(futureParents).NewChildNode();
        futureParents := Init(futureParents);
      }
      var meaning := NodeOf(decoder, encodedToken, []);
      token.tag, token.textContent := meaning.tag, meaning.text;
      futureParents := futureParents + seq(encodedToken.arity as nat, _ => token);
      ghost var tokens0 := tokens;
      tokens := tokens + [token];
      path := path + [encodedToken];
      BuildableSnoc(path0, encodedToken);
      AtLonger(tokens0, token, Rest(Pending(path0)));
      assert futureParents == At(tokens, Pending(path));
      forall i | 0 <= i <= n
        ensures Holds(i)
      {
        if i < n {
          assert old(Holds(i));
          assert FieldsOf(tokens[i]) == Extended(old(FieldsOf(tokens[i])), path0, i, token);
          GoodLater(decoder, path0, tokens0, encodedToken, token, i, old(FieldsOf(tokens[i])));
        } else {
          GoodNew(decoder, path0, tokens0, encodedToken, token, FieldsOf(token));
        }
      }
    }

    /** Takes back the last PushToken. */
    method PopToken(encodedToken: Token)
      requires Valid() && path != [] && encodedToken == Last(path)
      modifies this, tokens
      ensures Valid() && path == Init(old(path)) && tokens == Init(old(tokens))
    {
      hide Pending, Kids, NodeOf, Buildable, At, Good;
      ghost var path0, n, pending := path, |path| - 1, Pending(Init(path));
      ghost var tokens0 := tokens;
      assert Holds(n);
      LastIsGood(decoder, path, tokens, FieldsOf(Last(tokens)));
      PendingPopped(tokens, path, futureParents);
      BuildableInit(path);
      var token := Last(tokens);
      assert token.childNodes == [];
      tokens := Init(tokens);
      futureParents := futureParents[..|futureParents| - encodedToken.arity as nat];
      path := Init(path);
      var parent := token.parentNode;
      if parent != null {
        assert old(Holds(Last(pending)));
        GoodEarlier(decoder, path0, tokens0, Last(pending), FieldsOf(parent));
        parent.PopLastChild();
        futureParents := futureParents + [parent];
      } else {
        assert futureParents == [];
        root := null;
      }
      forall i | 0 <= i < n
        ensures Holds(i)
      {
        assert old(Holds(i));
        GoodEarlier(decoder, path0, tokens0, i, old(FieldsOf(tokens[i])));
      }
    }

    method Get() returns (tree: CmmlToken?)
      requires Valid()
      ensures tree == root && (tree == null <==> path == [])
      ensures path != [] ==> Denotes(tree, Value(decoder, path, 0), set n | n in tokens)
    {
      tree := root;
      if path != [] {
        DenotesValue(this, 0);
      }
    }
  }

  /** The node and all nodes below it, which are among nodes, form the tree c. */
  ghost predicate Denotes(n: CmmlToken, c: Cmml, nodes: set<CmmlToken>)
    reads nodes
    decreases c
  {
    && n in nodes && c.Node? && n.tag == c.tag && n.textContent == c.text
    && |n.childNodes| == |c.children|
    && forall i | 0 <= i < |c.children| :: Denotes(n.childNodes[i], c.children[i], nodes)
  }

  /** Stands for a receiver that looks at the whole tree. */
  method ReadTree(node: CmmlToken, ghost c: Cmml, ghost nodes: set<CmmlToken>) returns (tree: Cmml)
    requires Denotes(node, c, nodes)
    ensures tree == c
    decreases c
  {
    var kids, i := [], 0;
    while i < |node.childNodes|
      invariant 0 <= i <= |c.children| && kids == c.children[..i]
    {
      var kid := ReadTree(node.childNodes[i], c.children[i], nodes);
      kids, i := kids + [kid], i + 1;
    }
    assert c.children[..i] == c.children;
    tree := Node(node.tag, node.textContent, kids);
  }

  lemma {:induction false} DenotesValue(b: CmmlTokenBuilder, i: nat)
    requires b.Valid() && i < |b.path|
    ensures Denotes(b.tokens[i], Value(b.decoder, b.path, i), set n | n in b.tokens)
    decreases |b.path| - i
  {
    hide Pending, Kids, Buildable;
    assert b.Holds(i);
    var ks := Kids(b.path, i);
    forall k | 0 <= k < |ks|
      ensures Denotes(b.tokens[ks[k]], Value(b.decoder, b.path, ks[k]), set n | n in b.tokens)
    {
      DenotesValue(b, ks[k]);
    }
  }

  lemma AtNothing(nodes: seq<CmmlToken>)
    ensures At(nodes, []) == []
  {
  }

  /** The stack of waiting nodes before the last token was pushed. */
  lemma PendingPopped(nodes: seq<CmmlToken>, path: seq<Token>, parents: seq<CmmlToken>)
    requires path != [] && |path| == |nodes| && parents == At(nodes, Pending(path))
    ensures var pending, k := Pending(Init(path)), |parents| - Last(path).arity;
            && 0 <= k
            && (pending == [] ==> parents[..k] == [])
            && At(Init(nodes), pending) == parents[..k] + if pending == [] then [] else [nodes[Last(pending)]]
  {
    hide Pending;
    PendingSnoc(Init(path), Last(path));
    assert Init(path) + [Last(path)] == path;
  }

  lemma BuildableInit(p: seq<Token>)
    requires Buildable(p) && p != []
    ensures Buildable(Init(p)) && (|p| > 1 ==> Pending(Init(p)) != [])
  {
    hide Pending;
    assert forall i | 0 < i < |p| - 1 :: Init(p)[..i] == p[..i];
    assert p[..|p| - 1] == Init(p);
  }

  lemma BuildableSnoc(p: seq<Token>, tok: Token)
    requires Buildable(p) && (p == [] || Pending(p) != [])
    ensures Buildable(p + [tok])
  {
    hide Pending;
    forall i | 0 < i < |p| + 1
      ensures Pending((p + [tok])[..i]) != []
    {
      assert (p + [tok])[..i] == p[..i] && p[..|p|] == p;
    }
  }

  lemma AtLonger(nodes: seq<CmmlToken>, node: CmmlToken, ks: seq<nat>)
    requires forall k | 0 <= k < |ks| :: ks[k] < |nodes|
    ensures At(nodes + [node], ks) == At(nodes, ks)
  {
  }

  lemma AtSnoc(nodes: seq<CmmlToken>, ks: seq<nat>, k: nat)
    requires k < |nodes| && forall j | 0 <= j < |ks| :: ks[j] < |nodes|
    ensures At(nodes, ks + [k]) == At(nodes, ks) + [nodes[k]]
  {
  }

  /** One more child, if the position is next. */
  ghost function Extended(f: Fields, path: seq<Token>, i: nat, node: CmmlToken): Fields {
    f.(kids := f.kids + if NextBelow(path, i) then [node] else [])
  }

  lemma GoodLater(dec: Decoder, path: seq<Token>, nodes: seq<CmmlToken>, tok: Token, node: CmmlToken, i: nat, f: Fields)
    requires i < |path| == |nodes| && Good(dec, path, nodes, i, f)
    ensures Good(dec, path + [tok], nodes + [node], i, Extended(f, path, i, node))
  {
    hide Pending, Kids, NodeOf, At, NextBelow;
    KidsSnoc(path, tok, i);
    AtLonger(nodes, node, Kids(path, i));
    assert (path + [tok])[..i] == path[..i];
    if NextBelow(path, i) {
      AtSnoc(nodes + [node], Kids(path, i), |path|);
    } else {
      assert Kids(path, i) + [] == Kids(path, i);
      assert At(nodes, Kids(path, i)) + [] == At(nodes, Kids(path, i));
    }
  }

  lemma GoodNew(dec: Decoder, path: seq<Token>, nodes: seq<CmmlToken>, tok: Token, node: CmmlToken, f: Fields)
    requires |path| == |nodes|
    requires var c := NodeOf(dec, tok, []); f.tag == c.tag && f.text == c.text
    requires f.kids == [] && f.parent == if Pending(path) == [] then null else nodes[Last(Pending(path))]
    ensures Good(dec, path + [tok], nodes + [node], |path|, f)
  {
    hide Pending, Kids, NodeOf;
    assert (path + [tok])[..|path|] == path;
    AtNothing(nodes + [node]);
  }

  lemma GoodEarlier(dec: Decoder, path: seq<Token>, nodes: seq<CmmlToken>, i: nat, f: Fields)
    requires i < |path| - 1 && |path| == |nodes| && Good(dec, path, nodes, i, f)
    ensures NextBelow(Init(path), i) ==> f.kids != [] && Last(f.kids) == Last(nodes)
    ensures Good(dec, Init(path), Init(nodes), i, if NextBelow(Init(path), i) then f.(kids := Init(f.kids)) else f)
  {
    hide Pending, Kids, NodeOf, At, NextBelow;
    KidsSnoc(Init(path), Last(path), i);
    assert Init(path) + [Last(path)] == path && Init(nodes) + [Last(nodes)] == nodes;
    AtLonger(Init(nodes), Last(nodes), Kids(Init(path), i));
    assert Init(path)[..i] == path[..i];
    if NextBelow(Init(path), i) {
      AtSnoc(nodes, Kids(Init(path), i), |path| - 1);
    } else {
      assert Kids(Init(path), i) + [] == Kids(Init(path), i);
    }
  }

  lemma LastIsGood(dec: Decoder, path: seq<Token>, nodes: seq<CmmlToken>, f: Fields)
    requires path != [] && |path| == |nodes| && Good(dec, path, nodes, |path| - 1, f)
    ensures f.kids == [] && f.parent == if Pending(Init(path)) == [] then null else nodes[Last(Pending(Init(path)))]
  {
    hide Pending, Kids, NodeOf;
    assert path[..|path| - 1] == Init(path);
    AtNothing(nodes);
  }
}
