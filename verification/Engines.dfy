/** The experimental query engine: two recursive functions over shared stacks that they put back
    in order before they return. */
module Engines {
  import opened Tokens
  import opened Terms
  import opened Tries
  import opened Accessors
  import opened Sectors
  import opened EngineSpec
  import opened EngineCompleteness
  import opened Wrappers

  datatype ResultCbReturn = QUERY_CONTINUE | QUERY_STOP

  class TokenStack {
    const data: array<Token>
    var size: nat

    ghost predicate Valid()
      reads this
    {
      data.Length == MAX_QUERY_STACK_SIZE && size <= data.Length
    }

    /** The tokens on the stack, top last. */
    ghost function Contents(): (s: seq<Token>)
      reads this, data
      requires Valid()
      ensures |s| == size
    {
      data[..size]
    }

    constructor ()
      ensures Valid() && fresh(data) && Contents() == []
    {
      data := new Token[MAX_QUERY_STACK_SIZE](_ => Token(0, 0));
      size := 0;
    }

    method Push(token: Token)
      requires Valid() && size < MAX_QUERY_STACK_SIZE
      modifies this, data
      ensures Valid() && Contents() == old(Contents()) + [token]
    {
      data[size] := token;
      size := size + 1;
    }

    method Pop() returns (token: Token)
      requires Valid() && size > 0
      modifies this
      ensures Valid() && token == Last(old(Contents())) && Contents() == Init(old(Contents()))
    {
      size := size - 1;
      token := data[size];
    }

    method PopMany(toPop: nat)
      requires Valid() && toPop <= size
      modifies this
      ensures Valid() && Contents() == old(Contents())[..old(size) - toPop]
    {
      size := size - toPop;
    }
  }

  /** The number of variables among the first entries; the source relies on another entry to stop at. */
  method InodeGetMaxVar(ix: Index, inode: Node) returns (i: nat)
    requires IsNode(ix, inode) && View(ix, inode).Inner?
    requires exists j | 0 <= j < |View(ix, inode).kids| :: !View(ix, inode).kids[j].tok.IsVar()
    ensures i < |View(ix, inode).kids| && !View(ix, inode).kids[i].tok.IsVar()
    ensures forall j | 0 <= j < i :: View(ix, inode).kids[j].tok.IsVar()
  {
    hide View, IsNode;
    ghost var stop :| 0 <= stop < |View(ix, inode).kids| && !View(ix, inode).kids[stop].tok.IsVar();
    i := 0;
    while GetToken(ix, Iterator(inode, i)).IsVar()
      invariant i <= stop && forall j | 0 <= j < i :: View(ix, inode).kids[j].tok.IsVar()
      decreases stop - i
    {
      i := i + 1;
    }
  }

  class QueryCtxt {
    const index: Index
    const queryStack: TokenStack
    const vars: array<VarInstantiation>
    var currIndexInode: Node
    var solvingVarId: nat
    /** What the callback got, and after how many answers it stops the search (0: never). */
    var results: seq<Node>
    ghost var paths: seq<seq<Token>>
    const stopAfter: nat

    ghost predicate Valid()
      reads this, queryStack
    {
      queryStack.Valid() && vars.Length == VAR_ID_MAX && |paths| == |results|
    }

    /** What a call may assume: the query on the stack fits the node, and there is room. */
    ghost predicate Ready(t: Trie, path: seq<Token>, n: nat, pushed: nat, b: Bindings)
      reads this, queryStack, queryStack.data, vars
    {
      && Valid() && vars[..] == b && GoodBindings(b)
      && IsNode(index, currIndexInode) && t == View(index, currIndexInode)
      && Fitting(t, path, n) && Fits(queryStack.Contents(), pushed)
    }

    constructor (ix: Index, query: seq<Token>, stopAfter: nat)
      requires IsNode(ix, GetRootNode(ix)) && |query| <= 256
      ensures Valid() && index == ix && this.stopAfter == stopAfter && currIndexInode == GetRootNode(ix)
      ensures fresh(queryStack) && fresh(queryStack.data) && fresh(vars) && results == []
      ensures queryStack.Contents() == Reversed(query)
      ensures forall i | 0 <= i < VAR_ID_MAX :: vars[i] == VarInstantiation(false, [])
    {
      index, this.stopAfter, currIndexInode := ix, stopAfter, GetRootNode(ix);
      queryStack := new TokenStack();
      vars := new VarInstantiation[VAR_ID_MAX](_ => VarInstantiation(false, []));
      solvingVarId, results, paths := 0, [], [];
      new;
      queryStack.size := |query|;
      for i := 0 to |query|
        invariant queryStack.Valid() && queryStack.size == |query| && results == [] && paths == []
        invariant currIndexInode == GetRootNode(ix) && forall j | 0 <= j < VAR_ID_MAX ::
                    vars[j] == VarInstantiation(false, [])
        invariant forall j | 0 <= j < i :: queryStack.data[|query| - j - 1] == query[j]
      {
        queryStack.data[|query| - i - 1] := query[i];
      }
    }

    /** The callback gets a leaf and tells whether to go on. */
    method ResultCb(leaf: Node, ghost path: seq<Token>) returns (ret: ResultCbReturn)
      requires Valid()
      modifies this`results, this`paths
      ensures results == old(results) + [leaf] && paths == old(paths) + [path]
      ensures ret == QUERY_STOP <==> |results| == stopAfter
    {
      results, paths := results + [leaf], paths + [path];
      ret := if |results| == stopAfter then QUERY_STOP else QUERY_CONTINUE;
    }

    /** Matches the query on the stack below the current node. */
    method ProcessQueryToken(ghost t: Trie, ghost path: seq<Token>, ghost n: nat, ghost pushed: nat, ghost b: Bindings)
        returns (ret: ResultCbReturn)
      requires Ready(t, path, n, pushed, b) && IsQuery(queryStack.Contents(), n)
      modifies this, queryStack, queryStack.data, vars
      ensures Valid() && old(results) <= results && old(paths) <= paths
      ensures AllSound(index, results, paths, |old(results)|, path, t, old(queryStack.Contents()), b)
      ensures Tally(ret == QUERY_STOP, stopAfter, |old(results)|, |results|,
                    Count(t, old(queryStack.Contents()), Bound(b)))
      ensures ret == QUERY_CONTINUE ==>
                queryStack.Contents() == old(queryStack.Contents()) && currIndexInode == old(currIndexInode)
                    && SameSolved(b, vars[..])
      decreases t, NumVars(queryStack.Contents()), 1
    {
      hide View, IsNode, WellFormed, Ground, Height, GoodBindings, Sound, IsQuery, NumVars, IsCode, Child, SameSolved,
           Reversed, Guess, Count, Bound;
      if queryStack.size == 0 {
        LeafReached(t, path, n, b);
        CountNothing(t, Bound(b));
        ret := ResultCb(currIndexInode, path);
        SameAsBefore(b);
        assert path[|path|..] == [];
        return;
      }
      ghost var stack := queryStack.Contents();
      var queryToken := queryStack.Pop();
      if queryToken.IsVar() {
        var varId := queryToken.id;
        VariableOnTop(stack, pushed, varId);
        if vars[varId].solved {
          ret := ProcessSolved(varId, t, path, n, stack, b);
        } else {
          SameAsBefore(b);
          AlsoGood(b, b, varId, []);
          solvingVarId := varId;
          vars[varId] := vars[varId].(tokens := []);
          ret := ProcessUnsolved(varId, t, path, n, stack, b);
        }
        if ret != QUERY_CONTINUE {
          return;
        }
        queryStack.Push(queryToken);
      } else {
        ret := ProcessConstant(queryToken, t, path, n, pushed, stack, b);
      }
      assert Init(stack) + [Last(stack)] == stack;
    }

    /** A solved variable: its tokens take its place on the stack. */
    method ProcessSolved(varId: nat, ghost t: Trie, ghost path: seq<Token>, ghost n: nat, ghost stack: seq<Token>,
                         ghost b: Bindings)
        returns (ret: ResultCbReturn)
      requires stack != [] && Last(stack).IsVar() && Last(stack).id == varId < |b| && b[varId].solved
      requires Started(t, path, n, stack, b) && Fits(stack, 0)
      modifies this, queryStack, queryStack.data, vars
      ensures Valid() && old(results) <= results && old(paths) <= paths
      ensures AllSound(index, results, paths, |old(results)|, path, t, stack, b)
      ensures Tally(ret == QUERY_STOP, stopAfter, |old(results)|, |results|, Count(t, stack, Bound(b)))
      ensures ret == QUERY_CONTINUE ==>
                queryStack.Contents() == Init(stack) && currIndexInode == old(currIndexInode) && SameSolved(b, vars[..])
      decreases t, NumVars(stack), 0
    {
      hide View, IsNode, Fitting, Sound, IsQuery, NumVars, IsCode, SameSolved, Guess, Count, Bound;
      var tokens := vars[varId].tokens;
      BindingIsGood(b, varId);
      var size := |tokens|;
      var i := 0;
      while i < size
        invariant 0 <= i <= size && Valid() && vars[..] == b && currIndexInode == old(currIndexInode)
        invariant results == old(results) && paths == old(paths)
        invariant queryStack.Contents() == Init(stack) + Reversed(tokens)[..i]
      {
        queryStack.Push(tokens[size - i - 1]);
        i := i + 1;
      }
      assert Reversed(tokens)[..i] == Reversed(tokens);
      PushedSolved(stack, n, tokens);
      FitsPushed(stack, tokens);
      ret := ProcessQueryToken(t, path, n, size, b);
      GuessSolved(t, stack, b);
      CountSolved(t, stack, b);
      SolvedAll(index, results, paths, |old(results)|, path, t, stack, b);
      if ret != QUERY_CONTINUE {
        return;
      }
      queryStack.PopMany(size);
      assert (Init(stack) + Reversed(tokens))[..|stack| - 1] == Init(stack);
    }

    /** An unsolved variable: it is bound to every term found below the node. */
    method ProcessUnsolved(varId: nat, ghost t: Trie, ghost path: seq<Token>, ghost n: nat, ghost stack: seq<Token>,
                           ghost b: Bindings)
        returns (ret: ResultCbReturn)
      requires stack != [] && Last(stack).IsVar() && Last(stack).id == varId == solvingVarId < |b| && !b[varId].solved
      requires Started(t, path, n, stack, b[varId := VarInstantiation(false, [])]) && Fits(stack, 0)
      modifies this, queryStack, queryStack.data, vars
      ensures Valid() && old(results) <= results && old(paths) <= paths
      ensures AllSound(index, results, paths, |old(results)|, path, t, stack, b)
      ensures Tally(ret == QUERY_STOP, stopAfter, |old(results)|, |results|, Count(t, stack, Bound(b)))
      ensures ret == QUERY_CONTINUE ==>
                queryStack.Contents() == Init(stack) && currIndexInode == old(currIndexInode) && SameSolved(b, vars[..])
      decreases t, NumVars(stack), 0
    {
      hide View, IsNode, Fitting, SoundFrom, Sound, NumVars, Fits, Guess, GuessFrom, Count, CountFrom, Bound;
      ghost var b' := b[varId := VarInstantiation(false, [])];
      PoppedVariable(stack, n);
      SameButTokens(b, varId);
      GuessUnsolved(t, stack, b);
      CountUnsolved(t, stack, b);
      ret := MatchVarToIndex(1, t, path, n - 1, b', []);
      UnsolvedAll(index, results, paths, |old(results)|, path, t, stack, b, b');
    }

    /** A constant: only the child with this token can match. */
    method ProcessConstant(queryToken: Token, ghost t: Trie, ghost path: seq<Token>, ghost n: nat, ghost pushed: nat,
                           ghost stack: seq<Token>, ghost b: Bindings)
        returns (ret: ResultCbReturn)
      requires stack != [] && Last(stack) == queryToken && !queryToken.IsVar()
      requires Started(t, path, n, stack, b) && Fits(stack, pushed)
      modifies this, queryStack, queryStack.data, vars
      ensures Valid() && old(results) <= results && old(paths) <= paths
      ensures AllSound(index, results, paths, |old(results)|, path, t, stack, b)
      ensures Tally(ret == QUERY_STOP, stopAfter, |old(results)|, |results|, Count(t, stack, Bound(b)))
      ensures ret == QUERY_CONTINUE ==>
                queryStack.Contents() == stack && currIndexInode == old(currIndexInode) && SameSolved(b, vars[..])
      decreases t, NumVars(stack), 0
    {
      hide View, IsNode, Fitting, Sound, NumVars, Fits, IsQuery, SameSolved, GoodBindings, Guess, Count, Bound;
      PoppedConstant(t, path, stack, n, pushed);
      GuessConstant(t, stack, Bound(b));
      CountConstant(t, stack, Bound(b));
      assert Init(stack) + [Last(stack)] == stack;
      var curr := currIndexInode;
      var child := GetChild(index, curr, queryToken);
      if child.Some? {
        ghost var c := View(index, child.value);
        ChildFits(t, path, n, queryToken, c);
        currIndexInode := child.value;
        ret := ProcessQueryToken(c, path + [queryToken], n - 1 + queryToken.arity, if pushed > 0 then pushed - 1 else 0,
                                 b);
        ConstantAll(index, results, paths, |old(results)|, path, t, stack, b, c);
        if ret != QUERY_CONTINUE {
          return;
        }
        currIndexInode := curr;
        queryStack.Push(queryToken);
        assert !t.kids[0].tok.IsVar();
        var hvarIdMax := InodeGetMaxVar(index, currIndexInode);
        assert hvarIdMax == 0;
      } else {
        queryStack.Push(queryToken);
        SameAsBefore(b);
      }
      ret := QUERY_CONTINUE;
    }

    /** Binds the variable being solved to the term that starts here, with arity terms to come.
        Every pass of the loop reads the first entry of the node. */
    method MatchVarToIndex(arity: nat, ghost t: Trie, ghost path: seq<Token>, ghost m: nat, ghost b: Bindings,
                           ghost tokens: seq<Token>)
        returns (ret: ResultCbReturn)
      requires Ready(t, path, m + arity, 0, b) && IsQuery(queryStack.Contents(), m)
      requires solvingVarId < |b| && b[solvingVarId] == VarInstantiation(false, tokens)
      requires Partial(tokens, arity) && |tokens| <= |path| && forall i | 0 <= i < |tokens| :: !tokens[i].IsVar()
      modifies this, queryStack, queryStack.data, vars
      ensures Valid() && old(results) <= results && old(paths) <= paths
      ensures AllSoundFrom(index, results, paths, |old(results)|, path, t, arity, old(solvingVarId), tokens,
                           old(queryStack.Contents()), b)
      ensures Tally(ret == QUERY_STOP, stopAfter, |old(results)|, |results|,
                    CountFrom(t, arity, old(solvingVarId), tokens, old(queryStack.Contents()), Bound(b)))
      ensures ret == QUERY_CONTINUE ==>
                && queryStack.Contents() == old(queryStack.Contents()) && currIndexInode == old(currIndexInode)
                && solvingVarId == old(solvingVarId) && SameSolved(b, vars[..]) && vars[solvingVarId] == b[solvingVarId]
      decreases t, NumVars(queryStack.Contents()), 2
    {
      hide View, IsNode, Fitting, SoundFrom, Sound, NumVars, Fits, IsQuery, SameSolved, GoodBindings, Partial, Guess,
           GuessFrom, Count, CountFrom, Bound;
      ghost var stack, v := queryStack.Contents(), solvingVarId;
      if arity == 0 {
        var varId := solvingVarId;
        TermComplete(t, path, m, tokens, b, v);
        GuessComplete(t, v, tokens, stack, b);
        CountComplete(t, v, tokens, stack, b);
        if |vars[varId].tokens| > 0 {
          vars[varId] := vars[varId].(solved := true);
        }
        ret := ProcessQueryToken(t, path, m, 0, b[v := VarInstantiation(true, tokens)]);
        BoundAll(index, results, paths, |old(results)|, path, t, v, tokens, stack, b);
        if ret != QUERY_CONTINUE {
          return;
        }
        Unbound(b, vars[..], v, tokens);
        solvingVarId := varId;
        vars[varId] := vars[varId].(solved := false);
      } else {
        ret := MatchFirstEntry(arity, t, path, m, b, tokens);
      }
    }

    /** The loop over the entries of the node. */
    method MatchFirstEntry(arity: nat, ghost t: Trie, ghost path: seq<Token>, ghost m: nat, ghost b: Bindings,
                           ghost tokens: seq<Token>)
        returns (ret: ResultCbReturn)
      requires Ready(t, path, m + arity, 0, b) && IsQuery(queryStack.Contents(), m) && arity > 0
      requires solvingVarId < |b| && b[solvingVarId] == VarInstantiation(false, tokens)
      requires Partial(tokens, arity) && |tokens| <= |path| && forall i | 0 <= i < |tokens| :: !tokens[i].IsVar()
      modifies this, queryStack, queryStack.data, vars
      ensures Valid() && old(results) <= results && old(paths) <= paths
      ensures AllSoundFrom(index, results, paths, |old(results)|, path, t, arity, old(solvingVarId), tokens,
                           old(queryStack.Contents()), b)
      ensures Tally(ret == QUERY_STOP, stopAfter, |old(results)|, |results|,
                    CountFrom(t, arity, old(solvingVarId), tokens, old(queryStack.Contents()), Bound(b)))
      ensures ret == QUERY_CONTINUE ==>
                && queryStack.Contents() == old(queryStack.Contents()) && currIndexInode == old(currIndexInode)
                && solvingVarId == old(solvingVarId) && SameSolved(b, vars[..]) && vars[solvingVarId] == b[solvingVarId]
      decreases t, NumVars(queryStack.Contents()), 1
    {
      hide View, IsNode, Fitting, SoundFrom, NumVars, Fits, IsQuery, SameSolved, GoodBindings, Partial, GuessFrom,
           CountFrom, Bound, Tally;
      ghost var stack := queryStack.Contents();
      var v := solvingVarId;
      HasEntry(t, path, m + arity);
      var curr := currIndexInode;
      var size := EntryCount(index, curr);
      var entryToken := GetToken(index, Iterator(curr, 0));
      var child := GetNode(index, Iterator(curr, 0));
      ghost var c := View(index, child);
      FirstEntryFits(t, path, m, arity, tokens);
      SameAsBefore(b);
      CountStep(t, arity, v, tokens, stack, Bound(b));
      ghost var passes := CountFrom(c, arity - 1 + entryToken.arity, v, tokens + [entryToken], stack, Bound(b));
      NothingTallied(stopAfter, |results|, passes);
      var i := 0;
      while i < size
        invariant 0 <= i <= size && Valid() && old(results) <= results && old(paths) <= paths
        invariant AllSoundFrom(index, results, paths, |old(results)|, path, t, arity, v, tokens, stack, b)
        invariant Tally(false, stopAfter, |old(results)|, |results|, i * passes)
        invariant queryStack.Contents() == stack && currIndexInode == curr && solvingVarId == v
        invariant SameSolved(b, vars[..]) && vars[v] == b[v]
      {
        ghost var results0, paths0 := results, paths;
        ghost var b1 := vars[..][v := VarInstantiation(false, tokens + [entryToken])];
        assert |vars[v].tokens| < MAX_VAR_INSTANTIATION_SIZE;
        AlsoGood(b, vars[..], v, tokens + [entryToken]);
        BoundSame(b, b1);
        GuessStep(t, arity, v, tokens, stack, Bound(b));
        vars[v] := vars[v].(tokens := vars[v].tokens + [entryToken]);
        currIndexInode := child;
        ret := MatchVarToIndex(arity + entryToken.arity - 1, c, path + [entryToken], m, b1, tokens + [entryToken]);
        StepAll(index, results0, paths0, results, paths, |old(results)|, path, t, arity, v, tokens, entryToken, stack,
                b, b1, c);
        TallyPass(ret == QUERY_STOP, stopAfter, |old(results)|, |results0|, |results|, i, size, passes);
        if ret != QUERY_CONTINUE {
          return;
        }
        AgainSame(b, b1, vars[..], v, tokens);
        vars[v] := vars[v].(tokens := Init(vars[v].tokens));
        currIndexInode := curr;
        i := i + 1;
      }
      ret := QUERY_CONTINUE;
    }

    /** The query token has been taken from the stack. */
    ghost predicate Started(t: Trie, path: seq<Token>, n: nat, stack: seq<Token>, b: Bindings)
      reads this, queryStack, queryStack.data, vars
      requires stack != []
    {
      && Valid() && vars[..] == b && GoodBindings(b)
      && IsNode(index, currIndexInode) && t == View(index, currIndexInode)
      && Fitting(t, path, n) && IsQuery(stack, n) && queryStack.Contents() == Init(stack)
    }
  }

  /** The node has room for n terms below a path that stays within bounds. */
  ghost predicate Fitting(t: Trie, path: seq<Token>, n: nat)
  {
    WellFormed(t, n) && Ground(t) && |path| + Height(t) <= MAX_VAR_INSTANTIATION_SIZE
  }

  /** The answers from number k on are leaves below path that are sound for the query. */
  ghost predicate AllSound(ix: Index, results: seq<Node>, paths: seq<seq<Token>>, k: nat, path: seq<Token>, t: Trie,
                           stack: seq<Token>, b: Bindings)
  {
    && k <= |results| == |paths|
    && forall i | k <= i < |results| ::
         && path <= paths[i] && IsNode(ix, results[i])
         && Sound(t, stack, b, paths[i][|path|..], View(ix, results[i]))
         && Guess(t, stack, Bound(b)) == Some(paths[i][|path|..])
  }

  ghost predicate AllSoundFrom(ix: Index, results: seq<Node>, paths: seq<seq<Token>>, k: nat, path: seq<Token>, t: Trie,
                               a: nat, v: nat, tokens: seq<Token>, stack: seq<Token>, b: Bindings)
  {
    && k <= |results| == |paths|
    && forall i | k <= i < |results| ::
         && path <= paths[i] && IsNode(ix, results[i])
         && SoundFrom(t, v, tokens, stack, b, paths[i][|path|..], View(ix, results[i]))
         && GuessFrom(t, a, v, tokens, stack, Bound(b)) == Some(paths[i][|path|..])
  }

  /** The pushed tokens on top are constants, and both parts of the stack are bounded. */
  ghost predicate Fits(stack: seq<Token>, pushed: nat)
  {
    && pushed <= |stack| && pushed <= MAX_VAR_INSTANTIATION_SIZE && |stack| - pushed <= 256
    && (forall i | |stack| - pushed <= i < |stack| :: !stack[i].IsVar())
    && forall i | 0 <= i < |stack| && stack[i].IsVar() :: stack[i].id < VAR_ID_MAX
  }

  function EntryCount(ix: Index, n: Node): (size: nat)
    requires IsNode(ix, n) && View(ix, n).Inner?
    ensures size == |View(ix, n).kids|
  {
    match ix
    case TmpIndex(_) => |n.t.kids|
    case SectorIndex(m, _) => NodeSize(m, n.address)
  }

  // ---------------------------------------------------------------- facts for the calls

  lemma SameAsBefore(b: Bindings)
    ensures SameSolved(b, b)
  {
  }

  lemma SameButTokens(b: Bindings, v: nat)
    requires v < |b| && !b[v].solved
    ensures SameSolved(b, b[v := VarInstantiation(false, [])]) && Bound(b[v := VarInstantiation(false, [])]) == Bound(b)
  {
    BoundSame(b, b[v := VarInstantiation(false, [])]);
  }

  lemma LeafReached(t: Trie, path: seq<Token>, n: nat, b: Bindings)
    requires Fitting(t, path, n) && IsQuery([], n) && GoodBindings(b)
    ensures t.Leaf? && Sound(t, [], b, [], t) && Guess(t, [], Bound(b)) == Some([])
  {
    SoundLeaf(t, b);
  }

  lemma CountNothing(t: Trie, bound: Substitution)
    ensures Count(t, [], bound) == 1
  {
  }

  lemma VariableOnTop(stack: seq<Token>, pushed: nat, varId: nat)
    requires stack != [] && Fits(stack, pushed) && Last(stack).IsVar() && varId == Last(stack).id
    ensures pushed == 0 && varId < VAR_ID_MAX
  {
  }

  lemma BindingIsGood(b: Bindings, v: nat)
    requires GoodBindings(b) && v < |b| && b[v].solved
    ensures IsCode(b[v].tokens, 1) && |b[v].tokens| <= MAX_VAR_INSTANTIATION_SIZE
    ensures forall i | 0 <= i < |b[v].tokens| :: !b[v].tokens[i].IsVar()
  {
  }

  lemma PushedSolved(stack: seq<Token>, n: nat, tokens: seq<Token>)
    requires stack != [] && Last(stack).IsVar() && IsQuery(stack, n)
    requires IsCode(tokens, 1) && forall i | 0 <= i < |tokens| :: !tokens[i].IsVar()
    ensures IsQuery(Init(stack) + Reversed(tokens), n) && NumVars(Init(stack) + Reversed(tokens)) < NumVars(stack)
  {
    IsQueryPushed(Init(stack), n - 1, tokens, 1);
  }

  lemma FitsPushed(stack: seq<Token>, tokens: seq<Token>)
    requires stack != [] && Fits(stack, 0) && |tokens| <= MAX_VAR_INSTANTIATION_SIZE
    requires forall i | 0 <= i < |tokens| :: !tokens[i].IsVar()
    ensures Fits(Init(stack) + Reversed(tokens), |tokens|)
  {
    var all := Init(stack) + Reversed(tokens);
    assert forall i | 0 <= i < |stack| - 1 :: all[i] == stack[i];
    assert forall i | |stack| - 1 <= i < |all| :: all[i] == tokens[|all| - 1 - i];
  }

  lemma PoppedVariable(stack: seq<Token>, n: nat)
    requires stack != [] && Last(stack).IsVar() && IsQuery(stack, n) && Fits(stack, 0)
    ensures n > 0 && IsQuery(Init(stack), n - 1) && NumVars(Init(stack)) < NumVars(stack) && Fits(Init(stack), 0)
    ensures Partial([], 1)
  {
    assert forall i | 0 <= i < |stack| - 1 :: Init(stack)[i] == stack[i];
  }

  lemma PoppedConstant(t: Trie, path: seq<Token>, stack: seq<Token>, n: nat, pushed: nat)
    requires stack != [] && !Last(stack).IsVar() && IsQuery(stack, n) && Fits(stack, pushed) && Fitting(t, path, n)
    ensures n > 0 && IsQuery(Init(stack), n - 1 + Last(stack).arity) && NumVars(Init(stack)) == NumVars(stack)
    ensures Fits(Init(stack), if pushed > 0 then pushed - 1 else 0) && |stack| <= MAX_QUERY_STACK_SIZE
    ensures t.Inner? && Sorted(t.kids) && t.kids != [] && forall i | 0 <= i < |t.kids| :: !t.kids[i].tok.IsVar()
  {
    assert forall i | 0 <= i < |stack| - 1 :: Init(stack)[i] == stack[i];
  }

  lemma ChildFits(t: Trie, path: seq<Token>, n: nat, tok: Token, c: Trie)
    requires Fitting(t, path, n) && n > 0 && Child(t, tok) == Some(c)
    ensures Fitting(c, path + [tok], n - 1 + tok.arity) && c < t
  {
    var k := KeyIndex(t.kids, tok);
    assert t.kids[k].node == c;
    assert Height(t.kids[k].node) <= HeightFrom(t, 0);
  }

  lemma HasEntry(t: Trie, path: seq<Token>, n: nat)
    requires Fitting(t, path, n) && n > 0
    ensures t.Inner? && t.kids != []
  {
  }

  lemma FirstEntryFits(t: Trie, path: seq<Token>, m: nat, arity: nat, tokens: seq<Token>)
    requires Fitting(t, path, m + arity) && arity > 0 && Partial(tokens, arity) && |tokens| <= |path|
    ensures t.Inner? && t.kids != []
    ensures var tok, c := t.kids[0].tok, t.kids[0].node;
            && !tok.IsVar() && Child(t, tok) == Some(c) && c < t
            && Fitting(c, path + [tok], m + (arity + tok.arity - 1))
            && Partial(tokens + [tok], arity + tok.arity - 1) && |tokens| < MAX_VAR_INSTANTIATION_SIZE
  {
    var tok, c := t.kids[0].tok, t.kids[0].node;
    ChildAt(t, 0);
    ChildFits(t, path, m + arity, tok, c);
    assert Init(tokens + [tok]) == tokens && Last(tokens + [tok]) == tok;
  }

  lemma TermComplete(t: Trie, path: seq<Token>, m: nat, tokens: seq<Token>, b: Bindings, v: nat)
    requires Fitting(t, path, m) && |tokens| <= |path| && v < |b| && GoodBindings(b)
    requires Partial(tokens, 0) && forall i | 0 <= i < |tokens| :: !tokens[i].IsVar()
    ensures |tokens| > 0 && GoodBindings(b[v := VarInstantiation(true, tokens)])
  {
    PartialIsCode(tokens, 0, []);
    assert tokens + [] == tokens;
  }

  lemma Unbound(b: Bindings, after: Bindings, v: nat, tokens: seq<Token>)
    requires v < |b| && b[v] == VarInstantiation(false, tokens)
             && SameSolved(b[v := VarInstantiation(true, tokens)], after)
    ensures v < |after| && after[v] == VarInstantiation(true, tokens)
    ensures SameSolved(b, after[v := VarInstantiation(false, tokens)])
  {
    var b' := b[v := VarInstantiation(true, tokens)];
    assert b'[v].solved && forall u | 0 <= u < |b| && u != v :: b'[u] == b[u];
  }

  lemma AlsoGood(b: Bindings, now: Bindings, v: nat, tokens: seq<Token>)
    requires GoodBindings(b) && SameSolved(b, now) && v < |b| && !b[v].solved
    ensures var b1 := now[v := VarInstantiation(false, tokens)]; GoodBindings(b1) && SameSolved(b, b1)
  {
    var b1 := now[v := VarInstantiation(false, tokens)];
    assert forall u | 0 <= u < |b| && u != v :: b1[u] == now[u];
  }

  lemma AgainSame(b: Bindings, b1: Bindings, after: Bindings, v: nat, tokens: seq<Token>)
    requires SameSolved(b, b1) && SameSolved(b1, after) && v < |b| && !b[v].solved
    ensures SameSolved(b, after[v := VarInstantiation(false, tokens)])
  {
    var now := after[v := VarInstantiation(false, tokens)];
    assert forall u | 0 <= u < |b| && u != v :: now[u] == after[u];
  }

  // ---------------------------------------------------------------- answers of calls

  lemma SolvedAll(ix: Index, results: seq<Node>, paths: seq<seq<Token>>, k: nat, path: seq<Token>, t: Trie,
                  stack: seq<Token>, b: Bindings)
    requires stack != [] && Last(stack).IsVar() && Last(stack).id < |b| && b[Last(stack).id].solved && GoodBindings(b)
    requires AllSound(ix, results, paths, k, path, t, Init(stack) + Reversed(b[Last(stack).id].tokens), b)
    ensures AllSound(ix, results, paths, k, path, t, stack, b)
  {
    hide Sound, GoodBindings, View, IsNode, Guess, Bound;
    GuessSolved(t, stack, b);
    forall i | k <= i < |results|
      ensures Sound(t, stack, b, paths[i][|path|..], View(ix, results[i]))
    {
      SoundSolved(t, stack, b, paths[i][|path|..], View(ix, results[i]));
    }
  }

  lemma UnsolvedAll(ix: Index, results: seq<Node>, paths: seq<seq<Token>>, k: nat, path: seq<Token>, t: Trie,
                    stack: seq<Token>, b: Bindings, b': Bindings)
    requires stack != [] && Last(stack).IsVar() && SameSolved(b, b')
    requires Last(stack).id < |b| && !b[Last(stack).id].solved
    requires AllSoundFrom(ix, results, paths, k, path, t, 1, Last(stack).id, [], Init(stack), b')
    ensures AllSound(ix, results, paths, k, path, t, stack, b)
  {
    hide Sound, SoundFrom, SameSolved, View, IsNode, Guess, GuessFrom, Bound;
    GuessUnsolved(t, stack, b);
    BoundSame(b, b');
    forall i | k <= i < |results|
      ensures Sound(t, stack, b, paths[i][|path|..], View(ix, results[i]))
    {
      SoundUnsolved(t, stack, b', paths[i][|path|..], View(ix, results[i]));
      SoundForSame(t, stack, b, b', paths[i][|path|..], View(ix, results[i]));
    }
  }

  lemma BelowPath(path: seq<Token>, tok: Token, p: seq<Token>)
    requires path + [tok] <= p
    ensures path <= p && p[|path|..] == [tok] + p[|path| + 1..]
  {
    assert p[|path|] == (path + [tok])[|path|];
  }

  lemma ConstantAll(ix: Index, results: seq<Node>, paths: seq<seq<Token>>, k: nat, path: seq<Token>, t: Trie,
                    stack: seq<Token>, b: Bindings, c: Trie)
    requires stack != [] && !Last(stack).IsVar() && Child(t, Last(stack)) == Some(c)
    requires AllSound(ix, results, paths, k, path + [Last(stack)], c, Init(stack), b)
    ensures AllSound(ix, results, paths, k, path, t, stack, b)
  {
    hide Sound, View, IsNode, Guess, Bound;
    GuessConstant(t, stack, Bound(b));
    forall i | k <= i < |results|
      ensures path <= paths[i] && Sound(t, stack, b, paths[i][|path|..], View(ix, results[i]))
      ensures Guess(t, stack, Bound(b)) == Some(paths[i][|path|..])
    {
      BelowPath(path, Last(stack), paths[i]);
      SoundConstant(t, stack, b, c, paths[i][|path| + 1..], View(ix, results[i]));
    }
  }

  lemma BoundAll(ix: Index, results: seq<Node>, paths: seq<seq<Token>>, k: nat, path: seq<Token>, t: Trie, v: nat,
                 tokens: seq<Token>, stack: seq<Token>, b: Bindings)
    requires v < |b| && !b[v].solved
    requires AllSound(ix, results, paths, k, path, t, stack, b[v := VarInstantiation(true, tokens)])
    ensures AllSoundFrom(ix, results, paths, k, path, t, 0, v, tokens, stack, b)
  {
    hide Sound, SoundFrom, View, IsNode, Guess, GuessFrom, Bound;
    GuessComplete(t, v, tokens, stack, b);
    forall i | k <= i < |results|
      ensures SoundFrom(t, v, tokens, stack, b, paths[i][|path|..], View(ix, results[i]))
    {
      SoundBound(t, v, tokens, stack, b, paths[i][|path|..], View(ix, results[i]));
    }
  }

  lemma StepAll(ix: Index, results0: seq<Node>, paths0: seq<seq<Token>>, results: seq<Node>, paths: seq<seq<Token>>,
                k: nat, path: seq<Token>, t: Trie, a: nat, v: nat, tokens: seq<Token>, tok: Token, stack: seq<Token>,
                b: Bindings, b1: Bindings, c: Trie)
    requires results0 <= results && paths0 <= paths && SameSolved(b, b1) && Child(t, tok) == Some(c)
    requires t.Inner? && t.kids != [] && t.kids[0] == Edge(tok, c) && a > 0
    requires AllSoundFrom(ix, results0, paths0, k, path, t, a, v, tokens, stack, b)
    requires AllSoundFrom(ix, results, paths, |results0|, path + [tok], c, a - 1 + tok.arity, v, tokens + [tok], stack,
                          b1)
    ensures AllSoundFrom(ix, results, paths, k, path, t, a, v, tokens, stack, b)
  {
    hide SoundFrom, SameSolved, View, IsNode, GuessFrom, Bound;
    GuessStep(t, a, v, tokens, stack, Bound(b));
    BoundSame(b, b1);
    forall i | k <= i < |results|
      ensures path <= paths[i] && IsNode(ix, results[i])
              && SoundFrom(t, v, tokens, stack, b, paths[i][|path|..], View(ix, results[i]))
      ensures GuessFrom(t, a, v, tokens, stack, Bound(b)) == Some(paths[i][|path|..])
    {
      if i < |results0| {
        assert results0[i] == results[i] && paths0[i] == paths[i];
      } else {
        BelowPath(path, tok, paths[i]);
        SoundStep(t, v, tokens, tok, stack, b1, c, paths[i][|path| + 1..], View(ix, results[i]));
        SoundFromForSame(t, v, tokens, stack, b, b1, paths[i][|path|..], View(ix, results[i]));
      }
    }
  }

  // ---------------------------------------------------------------- a run

  /** Runs a query. Every leaf handed to the callback is an instance of the query, but all of them
      are one and the same leaf. Unless it is stopped without an answer, a run finds the instance
      whose variables take first entries; so it finds them all if the query has no variable or the
      index one formula. */
  method QueryEngineRun(ix: Index, query: seq<Token>, stopAfter: nat)
      returns (ret: ResultCbReturn, results: seq<Node>, ghost paths: seq<seq<Token>>)
    requires IsNode(ix, GetRootNode(ix)) && InBounds(View(ix, GetRootNode(ix)), query)
    ensures |paths| == |results|
    ensures forall i | 0 <= i < |results| ::
              && IsNode(ix, results[i]) && View(ix, results[i]).Leaf?
              && Descend(View(ix, GetRootNode(ix)), paths[i]) == Some(View(ix, results[i]))
              && IsInstanceOf(query, paths[i]) && FirstGuess(View(ix, GetRootNode(ix)), query) == Some(paths[i])
    ensures ret == QUERY_CONTINUE ==> (results != [] <==> FirstGuess(View(ix, GetRootNode(ix)), query).Some?)
    ensures Tally(ret == QUERY_STOP, stopAfter, 0, |results|, FirstCount(View(ix, GetRootNode(ix)), query))
    ensures var tree := View(ix, GetRootNode(ix));
            ret == QUERY_CONTINUE ==>
              forall sub | Finds(tree, query, sub) && Leading(tree, query, {}, sub) ::
                |results| == Times(tree, query, {}, sub)
    ensures var tree := View(ix, GetRootNode(ix));
            ret == QUERY_CONTINUE || results != [] ==>
              && (forall w :: w in paths <==> Reported(tree, query, w))
              && (Answered(tree, query, paths) <==> AllLeading(tree, query))
    ensures var tree := View(ix, GetRootNode(ix));
            (ret == QUERY_CONTINUE || results != []) && (Constants(query) || OneFormula(tree)) ==>
                Answered(tree, query, paths)
  {
    hide Answered, AllLeading, Reported, OneFormula, Constants, View, IsNode, WellFormed, Ground, Height, IsQueryFrom,
         Guess, Count, Sound, IsInstanceOf, Finds, Leading, Times;
    ghost var tree := View(ix, GetRootNode(ix));
    var queryCtxt := new QueryCtxt(ix, query, stopAfter);
    ghost var b := queryCtxt.vars[..];
    StartingBindings(b);
    StartFits(query);
    QueryReversed(query, 1);
    ret := queryCtxt.ProcessQueryToken(tree, [], 1, 0, b);
    results, paths := queryCtxt.results, queryCtxt.paths;
    forall i | 0 <= i < |results|
      ensures View(ix, results[i]).Leaf? && Descend(tree, paths[i]) == Some(View(ix, results[i]))
              && IsInstanceOf(query, paths[i])
    {
      assert paths[i][0..] == paths[i];
      SoundIsInstance(tree, query, b, paths[i], View(ix, results[i]));
    }
    assert results != [] ==> FirstGuess(tree, query) == Some(paths[0]);
    CountedIffGuessed(tree, Reversed(query), map[]);
    CountExactly(tree, query);
    if ret == QUERY_CONTINUE || results != [] {
      RunIsExact(tree, query, paths);
    }
  }

  lemma StartingBindings(b: Bindings)
    requires forall i | 0 <= i < |b| :: b[i] == VarInstantiation(false, [])
    ensures GoodBindings(b) && Bound(b) == map[]
  {
  }

  lemma StartFits(query: seq<Token>)
    requires |query| <= 256 && forall i | 0 <= i < |query| && query[i].IsVar() :: query[i].id < VAR_ID_MAX
    ensures Fits(Reversed(query), 0)
  {
  }
}
