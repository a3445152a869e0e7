/** Freezing the in-memory index to a sector: the walk over the index calls hooks, and the
    hooks drive the writer. */
module Exports {
  import opened Tokens
  import opened Tries
  import opened Walks
  import opened Accessors
  import opened IndexIterators
  import opened Sectors
  import opened SectorLayout
  import opened SectorReadBack
  import opened Checksums
  import opened Wrappers

  const MEMSECTOR_MAGIC := 0x88CA_FE88
  const MEMSECTOR_VERSION := 1

  // ---------------------------------------------------------------- the writer

  class MemsectorWriter {
    var file: seq<Byte>
    var offset: nat
    var entriesPromised: nat
    var entriesDelivered: nat
    var hasLongOffsets: bool
    /** Of what is written behind the header. */
    var checksum: bv32
    const longStart: nat

    ghost predicate Open()
      reads this
    {
      offset == |file| >= HEADER_SIZE && checksum == Crc32(0, file[HEADER_SIZE..])
    }

    /** The writer is between nodes. */
    ghost predicate Ready()
      reads this
    {
      Open() && entriesPromised == 0 && entriesDelivered == 0
    }

    constructor Create(longStart: nat)
      ensures Ready() && |file| == HEADER_SIZE && this.longStart == longStart
    {
      file, offset := Header(0, 0, 0), HEADER_SIZE;
      entriesPromised, entriesDelivered, hasLongOffsets, checksum := 0, 0, false, 0;
      this.longStart := longStart;
      CrcOfNothing(0);
    }

    method Write(data: seq<Byte>)
      requires Open()
      modifies `file, `offset, `checksum
      ensures Open() && file == old(file) + data
    {
      hide Crc32;
      CrcConcat(0, file[HEADER_SIZE..], data);
      assert (file + data)[HEADER_SIZE..] == file[HEADER_SIZE..] + data;
      file := file + data;
      offset := offset + |data|;
      checksum := ComputeCrc32(checksum, data);
    }

    /** The result is a 32-bit number of 4-byte units. */
    function GetCurrentOffset(): (r: nat)
      reads this
      requires offset % ALLOC_UNIT == 0
      ensures offset < TWO_34 ==> ALLOC_UNIT * r == offset
    {
      offset / ALLOC_UNIT % TWO_32
    }

    method WriteInodeBegin(numChildren: nat, furthermostChild: nat) returns (here: nat)
      requires Ready() && offset % ALLOC_UNIT == 0 && offset < TWO_34
      requires numChildren > 0 && furthermostChild <= offset / ALLOC_UNIT
      modifies this
      ensures here == old(offset) / ALLOC_UNIT
      ensures hasLongOffsets <==> Distance(here, furthermostChild) >= longStart
      ensures file == old(file) + HeaderBytes(hasLongOffsets, numChildren) && Open()
      ensures entriesPromised == numChildren && entriesDelivered == 0
    {
      entriesPromised := numChildren;
      here := GetCurrentOffset();
      var maxRelOff := here - furthermostChild;
      hasLongOffsets := maxRelOff >= longStart;
      if hasLongOffsets {
        Write(HeaderBytes(true, numChildren));
      } else {
        Write(HeaderBytes(false, numChildren));
      }
    }

    method WriteInodeEntry(token: Token, off: nat)
      requires entriesPromised > entriesDelivered && off != 0 && Open()
      modifies `file, `offset, `checksum, `entriesDelivered
      ensures file == old(file) + OneEntry(token, off, hasLongOffsets) && Open()
      ensures entriesDelivered == old(entriesDelivered) + 1
    {
      entriesDelivered := entriesDelivered + 1;
      if hasLongOffsets {
        Write(token.Bytes() + Bytes(off, 8));
      } else {
        Write(token.Bytes() + Bytes(off, 4));
      }
    }

    method WriteInodeEnd()
      requires 0 < entriesDelivered == entriesPromised && Open()
      modifies `entriesPromised, `entriesDelivered
      ensures Ready()
    {
      entriesDelivered, entriesPromised := 0, 0;
    }

    method WriteLeaf(numHits: nat, formulaId: nat) returns (off: nat)
      requires Ready() && offset % ALLOC_UNIT == 0 && offset < TWO_34
      modifies `file, `offset, `checksum
      ensures off == old(offset) / ALLOC_UNIT
      ensures Ready() && file == old(file) + LeafBytes(formulaId, numHits)
    {
      off := GetCurrentOffset();
      Write(LeafBytes(formulaId, numHits));
    }

    /** Writes one node behind its children, whose unit offsets are given. */
    method WriteChildrenOffsets(node: Trie, offsets: seq<nat>) returns (here: nat)
      requires Ready() && offset % ALLOC_UNIT == 0 && offset < TWO_34
      requires node.Inner? && node.kids != [] && |node.kids| == |offsets|
      requires AllBefore(offsets, offset / ALLOC_UNIT)
      modifies this
      ensures here == old(offset) / ALLOC_UNIT
      ensures Ready() && file == old(file) + NodeBytes(node.kids, offsets, here, longStart)
    {
      hide Bytes, HeaderBytes, OneEntry, Open, EntryBytes, Crc32;
      here := WriteInodeBegin(|node.kids|, offsets[0]);
      ghost var longOffsets, before := hasLongOffsets, file;
      NoEntries(node.kids, offsets, here, longOffsets, before);
      var i := 0;
      while i < |node.kids|
        invariant 0 <= i <= |node.kids| == entriesPromised && entriesDelivered == i
        invariant hasLongOffsets == longOffsets && Open()
        invariant file == before + EntryBytes(node.kids, offsets, here, longOffsets, i)
      {
        OneMoreEntry(node.kids, offsets, here, longOffsets, i, before);
        WriteInodeEntry(node.kids[i].tok, here - offsets[i]);
        i := i + 1;
      }
      WriteInodeEnd();
    }

    /** Rewrites the header, now that the root, the size and the checksum are known. */
    method Save(indexOff: nat)
      requires Ready()
      modifies `file
      ensures var body := old(file)[HEADER_SIZE..];
              file == Header(|body|, Field(Crc32(0, body)), indexOff) + body
    {
      file := Header(offset - HEADER_SIZE, Field(checksum), indexOff) + file[HEADER_SIZE..];
    }
  }

  lemma NoEntries(kids: seq<Edge<Trie>>, offs: seq<nat>, here: nat, longOffsets: bool, before: seq<Byte>)
    requires |kids| == |offs|
    ensures before + EntryBytes(kids, offs, here, longOffsets, 0) == before
  {
  }

  lemma OneMoreEntry(kids: seq<Edge<Trie>>, offs: seq<nat>, here: nat, longOffsets: bool, i: nat, before: seq<Byte>)
    requires i < |kids| == |offs| && offs[i] <= here
    ensures before + EntryBytes(kids, offs, here, longOffsets, i + 1)
         == (before + EntryBytes(kids, offs, here, longOffsets, i)) + OneEntry(kids[i].tok, here - offs[i], longOffsets)
  {
    hide OneEntry;
    Joined(before, EntryBytes(kids, offs, here, longOffsets, i), OneEntry(kids[i].tok, here - offs[i], longOffsets));
  }

  function Header(indexSize: nat, checksum: nat, rootOff: nat): (s: seq<Byte>)
    ensures |s| == HEADER_SIZE
  {
    Bytes(MEMSECTOR_MAGIC, 4) + Bytes(MEMSECTOR_VERSION, 4) + Bytes(indexSize, 8) + Bytes(checksum, 4)
        + Bytes(rootOff, 8)
  }

  /** The fields of the header in their order: magic number, version, size, checksum, root. */
  lemma HeaderIs(indexSize: nat, checksum: nat, rootOff: nat)
    ensures Header(indexSize, checksum, rootOff)
         == [0x88, 0xFE, 0xCA, 0x88, 1, 0, 0, 0] + Bytes(indexSize, 8) + Bytes(checksum, 4) + Bytes(rootOff, 8)
  {
    hide Bytes;
    LittleEndian(0x88CA_FE88);
    LittleEndian(1);
  }

  /** The index found in a sector: the root is named in the header. */
  function LoadIndex(m: seq<Byte>): Index
    requires |m| >= HEADER_SIZE
  {
    SectorIndex(m, ALLOC_UNIT * Load(m, 20, 8))
  }

  // ---------------------------------------------------------------- the hooks as a fold

  /** The bytes written and the stack of child offsets collected so far. */
  datatype ExportState = ExportState(file: seq<Byte>, dfs: seq<seq<nat>>)

  ghost function PushBack(dfs: seq<seq<nat>>, off: nat): seq<seq<nat>>
    requires dfs != []
  {
    Init(dfs) + [Last(dfs) + [off]]
  }

  /** Every child offset lies before the next node. */
  predicate AllBefore(offs: seq<nat>, here: nat) {
    forall i | 0 <= i < |offs| :: offs[i] < here
  }

  /** What the hooks do on one move of the walk; None when an assertion of the writer fails. */
  ghost function Step(st: ExportState, move: Move, longStart: nat): Option<ExportState>
  {
    var here := |st.file| / ALLOC_UNIT;
    if !move.c.Valid() || |st.file| % ALLOC_UNIT != 0 || st.dfs == [] then None
    else if move.Enter? then
      Some(if move.c.Kid().Inner? then st.(dfs := st.dfs + [[]]) else st)
    else match move.c.Kid()
      case Leaf(id, hits) => Some(ExportState(st.file + LeafBytes(id, hits), PushBack(st.dfs, here)))
      case Inner(kids) =>
        if |st.dfs| < 2 || kids == [] || |Last(st.dfs)| != |kids| || !AllBefore(Last(st.dfs), here) then None
        else Some(ExportState(st.file + NodeBytes(kids, Last(st.dfs), here, longStart), PushBack(Init(st.dfs), here)))
  }

  ghost function Steps(st: ExportState, moves: seq<Move>, longStart: nat): Option<ExportState>
    decreases |moves|
  {
    if moves == [] then Some(st)
    else
      var next := Step(st, moves[0], longStart);
      if next.None? then None else Steps(next.value, moves[1..], longStart)
  }

  lemma {:induction false} StepsConcat(st: ExportState, a: seq<Move>, b: seq<Move>, longStart: nat)
    ensures Steps(st, a + b, longStart) ==
            if Steps(st, a, longStart).None? then None else Steps(Steps(st, a, longStart).value, b, longStart)
    decreases |a|
  {
    hide Step;
    if a == [] {
      assert a + b == b;
    } else {
      assert (a + b)[1..] == a[1..] + b;
      var next := Step(st, a[0], longStart);
      if next.Some? {
        StepsConcat(next.value, a[1..], b, longStart);
      }
    }
  }

  /** The file only grows. */
  lemma {:induction false} StepsGrow(st: ExportState, moves: seq<Move>, longStart: nat)
    ensures Steps(st, moves, longStart).Some? ==> |st.file| <= |Steps(st, moves, longStart).value.file|
    decreases |moves|
  {
    if moves != [] {
      var next := Step(st, moves[0], longStart);
      if next.Some? {
        StepsGrow(next.value, moves[1..], longStart);
      }
    }
  }

  /** The state when the first i children of t are written. */
  ghost function AfterKids(st: ExportState, t: Trie, i: nat, longStart: nat): ExportState
    requires Dense(t) && t.Inner? && i <= |t.kids|
  {
    ExportState(st.file + Before(t, i, |st.file|, longStart), st.dfs + [Offsets(t, i, |st.file|, longStart)])
  }

  lemma AfterNone(st: ExportState, t: Trie, longStart: nat)
    requires Dense(t) && t.Inner?
    ensures AfterKids(st, t, 0, longStart) == st.(dfs := st.dfs + [[]])
  {
  }

  /** A tour over the children writes what the layout says. */
  lemma {:induction false} TourWrites(st: ExportState, t: Trie, c: nat, i: nat, longStart: nat)
    requires WellFormed(t, c) && Dense(t) && t.Inner? && i <= |t.kids| && |st.file| % ALLOC_UNIT == 0
    ensures Steps(AfterKids(st, t, i, longStart), TourFrom(t, c, i), longStart)
            == Some(AfterKids(st, t, |t.kids|, longStart))
    decreases t, |t.kids| - i
  {
    hide Steps, Before, Offsets, NodeBytes, Tour;
    var st0 := AfterKids(st, t, i, longStart);
    if i == |t.kids| {
      StepsNil(st0, longStart);
    } else {
      var cur, kid, c' := Cursor(t, i), t.kids[i].node, c - 1 + t.kids[i].tok.arity;
      var below, after := Tour(kid, c'), TourFrom(t, c, i + 1);
      assert TourFrom(t, c, i) == [Enter(cur)] + below + [Leave(cur)] + after;
      KidWrites(st, t, c, i, longStart);
      StepsConcat(st0, [Enter(cur)] + below + [Leave(cur)], after, longStart);
      TourWrites(st, t, c, i + 1, longStart);
    }
  }

  lemma StepsNil(st: ExportState, longStart: nat)
    ensures Steps(st, [], longStart) == Some(st)
  {
  }

  lemma StepsOne(st: ExportState, move: Move, longStart: nat)
    ensures Steps(st, [move], longStart) == Step(st, move, longStart)
  {
    assert [move][1..] == [];
  }

  /** Going through child i writes its subtree and notes where its node lies. */
  lemma {:induction false} KidWrites(st: ExportState, t: Trie, c: nat, i: nat, longStart: nat)
    requires WellFormed(t, c) && Dense(t) && t.Inner? && i < |t.kids| && |st.file| % ALLOC_UNIT == 0
    ensures var cur := Cursor(t, i);
            var moves := [Enter(cur)] + Tour(t.kids[i].node, c - 1 + t.kids[i].tok.arity) + [Leave(cur)];
            Steps(AfterKids(st, t, i, longStart), moves, longStart) == Some(AfterKids(st, t, i + 1, longStart))
    decreases t, 0
  {
    hide Steps, Before, Offsets, NodeBytes, LeafBytes;
    var st0, cur, kid, c' := AfterKids(st, t, i, longStart), Cursor(t, i), t.kids[i].node, c - 1 + t.kids[i].tok.arity;
    BeforeAligned(t, i, |st.file|, longStart);
    StepsConcat(st0, [Enter(cur)], Tour(kid, c'), longStart);
    StepsConcat(st0, [Enter(cur)] + Tour(kid, c'), [Leave(cur)], longStart);
    StepsOne(st0, Enter(cur), longStart);
    if kid.Leaf? {
      StepsNil(st0, longStart);
      LeafKidWritten(st, t, i, longStart);
      StepsOne(st0, Leave(cur), longStart);
    } else {
      AfterNone(st0, kid, longStart);
      TourWrites(st0, kid, c', 0, longStart);
      InnerKidWritten(st, t, i, longStart);
      StepsOne(AfterKids(st0, kid, |kid.kids|, longStart), Leave(cur), longStart);
    }
  }

  lemma LeafKidWritten(st: ExportState, t: Trie, i: nat, longStart: nat)
    requires Dense(t) && t.Inner? && i < |t.kids| && |st.file| % ALLOC_UNIT == 0
    requires t.kids[i].node.Leaf?
    ensures Step(AfterKids(st, t, i, longStart), Leave(Cursor(t, i)), longStart)
            == Some(AfterKids(st, t, i + 1, longStart))
  {
    hide LeafBytes;
    var st0, kid := AfterKids(st, t, i, longStart), t.kids[i].node;
    BeforeAligned(t, i, |st.file|, longStart);
    assert Init(st0.dfs) == st.dfs && Last(st0.dfs) == Offsets(t, i, |st.file|, longStart);
    assert |st0.file| == Address(kid, |st0.file|, longStart);
    var w := Written(kid, |st0.file|, longStart);
    assert Before(t, i + 1, |st.file|, longStart) == Before(t, i, |st.file|, longStart) + w;
    assert st.file + (Before(t, i, |st.file|, longStart) + w) == st0.file + w;
  }

  /** Writing the node of child i behind its own children completes child i. */
  lemma InnerKidWritten(st: ExportState, t: Trie, i: nat, longStart: nat)
    requires Dense(t) && t.Inner? && i < |t.kids| && |st.file| % ALLOC_UNIT == 0
    requires t.kids[i].node.Inner?
    ensures var st0, kid := AfterKids(st, t, i, longStart), t.kids[i].node;
            Step(AfterKids(st0, kid, |kid.kids|, longStart), Leave(Cursor(t, i)), longStart)
                == Some(AfterKids(st, t, i + 1, longStart))
  {
    hide NodeBytes, Before, OwnBytes, Written, Offsets, Address, Dense;
    var st0, kid := AfterKids(st, t, i, longStart), t.kids[i].node;
    KidBytes(t, i, |st.file|, longStart);
    var st2 := AfterKids(st0, kid, |kid.kids|, longStart);
    BeforeAligned(t, i, |st.file|, longStart);
    BeforeAligned(kid, |kid.kids|, |st0.file|, longStart);
    OffsetsIncrease(kid, |kid.kids|, |st0.file|, longStart);
    assert Init(st2.dfs) == st0.dfs && Last(st2.dfs) == Offsets(kid, |kid.kids|, |st0.file|, longStart);
    assert Init(st0.dfs) == st.dfs && Last(st0.dfs) == Offsets(t, i, |st.file|, longStart);
    Joined(st.file, Before(t, i, |st.file|, longStart), Written(kid, |st0.file|, longStart));
    Joined(st0.file, Before(kid, |kid.kids|, |st0.file|, longStart), OwnBytes(kid, |st0.file|, longStart));
  }

  lemma Joined<T>(a: seq<T>, b: seq<T>, c: seq<T>)
    ensures (a + b) + c == a + (b + c)
  {
  }

  lemma KidBytes(t: Trie, i: nat, start: nat, longStart: nat)
    requires Dense(t) && t.Inner? && i < |t.kids| && t.kids[i].node.Inner?
    ensures Dense(t.kids[i].node) && t.kids[i].node.kids != []
    ensures var kid, from := t.kids[i].node, start + |Before(t, i, start, longStart)|;
            var w := Written(kid, from, longStart);
            && w == Before(kid, |kid.kids|, from, longStart) + OwnBytes(kid, from, longStart)
            && Before(t, i + 1, start, longStart) == Before(t, i, start, longStart) + w
            && Address(kid, from, longStart) == from + |Before(kid, |kid.kids|, from, longStart)|
            && OwnBytes(kid, from, longStart)
               == NodeBytes(kid.kids, Offsets(kid, |kid.kids|, from, longStart),
                            Address(kid, from, longStart) / ALLOC_UNIT, longStart)
            && Offsets(t, i + 1, start, longStart)
                == Offsets(t, i, start, longStart) + [Address(kid, from, longStart) / ALLOC_UNIT]
  {
    hide NodeBytes;
  }

  // ---------------------------------------------------------------- the export

  /** The finished sector. */
  ghost function Exported(t: Trie, longStart: nat): seq<Byte>
    requires Dense(t)
  {
    var body := Written(t, HEADER_SIZE, longStart);
    Header(|body|, Field(Crc32(0, body)), Address(t, HEADER_SIZE, longStart) / ALLOC_UNIT) + body
  }

  class Exporter {
    const mswr: MemsectorWriter
    var dfsStack: seq<seq<nat>>

    constructor (mswr: MemsectorWriter)
      ensures this.mswr == mswr && dfsStack == []
    {
      this.mswr, dfsStack := mswr, [];
    }

    /** Reserves room for the offsets of the children of a node. */
    method OnPush(node: Trie, ghost c: Cursor)
      requires c.Valid() && c.Kid() == node
      requires Step(ExportState(mswr.file, dfsStack), Enter(c), mswr.longStart).Some?
      modifies `dfsStack
      ensures Some(ExportState(mswr.file, dfsStack))
              == old(Step(ExportState(mswr.file, dfsStack), Enter(c), mswr.longStart))
    {
      if node.Inner? {
        dfsStack := dfsStack + [[]];
      }
    }

    /** Writes a node whose children are written. */
    method OnPop(node: Trie, ghost c: Cursor)
      requires c.Valid() && c.Kid() == node
      requires mswr.Ready() && mswr.offset < TWO_34
      requires Step(ExportState(mswr.file, dfsStack), Leave(c), mswr.longStart).Some?
      modifies this, mswr
      ensures mswr.Ready()
      ensures Some(ExportState(mswr.file, dfsStack))
              == old(Step(ExportState(mswr.file, dfsStack), Leave(c), mswr.longStart))
    {
      hide NodeBytes, LeafBytes;
      if node.Inner? {
        var offset := mswr.WriteChildrenOffsets(node, Last(dfsStack));
        dfsStack := Init(dfsStack);
        dfsStack := Init(dfsStack) + [Last(dfsStack) + [offset]];
      } else {
        var offset := mswr.WriteLeaf(node.hits, node.id);
        dfsStack := Init(dfsStack) + [Last(dfsStack) + [offset]];
      }
    }

    /** Runs the hooks that one call of the walk made. */
    method RunHooks(ix: Index, events: seq<Event>, ghost moves: seq<Move>, ghost rest: seq<Move>)
      requires ix.TmpIndex? && ShowsMoves(ix, events, moves)
      requires mswr.Ready()
      requires var end := Steps(ExportState(mswr.file, dfsStack), moves + rest, mswr.longStart);
               end.Some? && |end.value.file| < TWO_34
      modifies this, mswr
      ensures mswr.Ready()
      ensures Steps(ExportState(mswr.file, dfsStack), rest, mswr.longStart)
           == old(Steps(ExportState(mswr.file, dfsStack), moves + rest, mswr.longStart))
    {
      hide Steps, MemsectorWriter.Open;
      var i := 0;
      assert moves[0..] == moves;
      while i < |events|
        invariant 0 <= i <= |events| == |moves|
        invariant mswr.Ready()
        invariant Steps(ExportState(mswr.file, dfsStack), moves[i..] + rest, mswr.longStart)
               == old(Steps(ExportState(mswr.file, dfsStack), moves + rest, mswr.longStart))
      {
        assert moves[i..] + rest == [moves[i]] + (moves[i + 1..] + rest);
        assert Shows(ix, events[i].it, moves[i].c);
        RunHook(ix, events[i], moves[i], moves[i + 1..] + rest);
        i := i + 1;
      }
      assert moves[i..] + rest == rest;
    }

    method RunHook(ix: Index, event: Event, ghost move: Move, ghost rest: seq<Move>)
      requires ix.TmpIndex? && Shows(ix, event.it, move.c) && (event.OnPush? <==> move.Enter?)
      requires mswr.Ready()
      requires var end := Steps(ExportState(mswr.file, dfsStack), [move] + rest, mswr.longStart);
               end.Some? && |end.value.file| < TWO_34
      modifies this, mswr
      ensures mswr.Ready()
      ensures Steps(ExportState(mswr.file, dfsStack), rest, mswr.longStart)
           == old(Steps(ExportState(mswr.file, dfsStack), [move] + rest, mswr.longStart))
    {
      hide Step, Crc32;
      assert ([move] + rest)[0] == move && ([move] + rest)[1..] == rest;
      StepsGrow(ExportState(mswr.file, dfsStack), [move] + rest, mswr.longStart);
      if event.OnPush? {
        OnPush(GetNode(ix, event.it).t, move.c);
      } else {
        OnPop(GetNode(ix, event.it).t, move.c);
      }
    }

    /** Iterates through the whole index, writing all nodes below the root. */
    method WriteBelowRoot(tree: Trie)
      requires WellFormed(tree, 1) && Dense(tree) && |Exported(tree, mswr.longStart)| < TWO_34
      requires mswr.Ready() && |mswr.file| == HEADER_SIZE && dfsStack == [[]]
      modifies this, mswr
      ensures mswr.Ready()
      ensures ExportState(mswr.file, dfsStack)
              == AfterKids(ExportState(old(mswr.file), []), tree, |tree.kids|, mswr.longStart)
    {
      hide Step, Steps, Exported, AfterKids, View, IsNode;
      var ix := TmpIndex(tree);
      RootView(tree);
      var it := new IndexIterator(ix);
      it.Set(ix, GetRootNode(ix), 1);
      ghost var end := AfterKids(ExportState(mswr.file, []), tree, |tree.kids|, mswr.longStart);
      StartOfExport(mswr.file, tree, mswr.longStart);
      var going := true;
      while going
        invariant it.Valid() && it.index == ix && mswr.Ready()
        invariant going ==> Steps(ExportState(mswr.file, dfsStack), it.RemainingMoves(), mswr.longStart) == Some(end)
        invariant !going ==> ExportState(mswr.file, dfsStack) == end
        decreases going, if going then |it.Remaining()| else 0
      {
        var node, events; ghost var moves;
        node, events, moves := it.Next();
        ghost var rest := if node.Some? then it.RemainingMoves() else [];
        RunHooks(ix, events, moves, rest);
        StepsNil(ExportState(mswr.file, dfsStack), mswr.longStart);
        going := node.Some?;
      }
    }

    /** Writes all nodes below the root, then the root, then the header. */
    method ExportToMemsector(tree: Trie)
      requires WellFormed(tree, 1) && Dense(tree) && |Exported(tree, mswr.longStart)| < TWO_34
      requires mswr.Ready() && |mswr.file| == HEADER_SIZE && dfsStack == []
      modifies this, mswr
      ensures mswr.file == Exported(tree, mswr.longStart) && dfsStack == []
    {
      hide NodeBytes, Header, Before, Offsets;
      dfsStack := dfsStack + [[]];
      ghost var header := mswr.file;
      WriteBelowRoot(tree);
      BelowRootWritten(header, tree, mswr.longStart);
      var rootOffset := mswr.WriteChildrenOffsets(tree, Last(dfsStack));
      dfsStack := Init(dfsStack);
      mswr.Save(rootOffset);
    }
  }

  lemma RootView(tree: Trie)
    ensures var ix := TmpIndex(tree);
            IsNode(ix, GetRootNode(ix)) && View(ix, GetRootNode(ix)) == tree
  {
  }

  lemma StartOfExport(header: seq<Byte>, tree: Trie, longStart: nat)
    requires WellFormed(tree, 1) && Dense(tree) && |header| == HEADER_SIZE
    ensures var end := AfterKids(ExportState(header, []), tree, |tree.kids|, longStart);
            Steps(ExportState(header, [[]]), Tour(tree, 1), longStart) == Some(end)
                && |end.file| < |Exported(tree, longStart)|
  {
    hide Header, Bytes, Steps, Step, NodeBytes, Offsets, HeaderBytes, EntryBytes;
    var st := ExportState(header, []);
    AfterNone(st, tree, longStart);
    assert st.dfs + [[]] == [[]];
    TourWrites(st, tree, 1, 0, longStart);
    assert Tour(tree, 1) == TourFrom(tree, 1, 0);
    assert |OwnBytes(tree, HEADER_SIZE, longStart)| > 0;
  }

  /** The subtrees are in place; the node of the root comes next. */
  lemma BelowRootWritten(header: seq<Byte>, tree: Trie, longStart: nat)
    requires WellFormed(tree, 1) && Dense(tree) && |header| == HEADER_SIZE
    ensures var end := AfterKids(ExportState(header, []), tree, |tree.kids|, longStart);
            var body := Written(tree, HEADER_SIZE, longStart);
            && end.dfs == [Offsets(tree, |tree.kids|, HEADER_SIZE, longStart)]
            && |end.file| % ALLOC_UNIT == 0 && AllBefore(Last(end.dfs), |end.file| / ALLOC_UNIT)
            && |end.file| == Address(tree, HEADER_SIZE, longStart)
            && end.file + NodeBytes(tree.kids, Last(end.dfs), |end.file| / ALLOC_UNIT, longStart) == header + body
            && (header + body)[HEADER_SIZE..] == body
  {
    hide Header, Bytes, NodeBytes, HeaderBytes, EntryBytes, Before, Offsets;
    var end := AfterKids(ExportState(header, []), tree, |tree.kids|, longStart);
    BeforeAligned(tree, |tree.kids|, HEADER_SIZE, longStart);
    OffsetsIncrease(tree, |tree.kids|, HEADER_SIZE, longStart);
    var before := Before(tree, |tree.kids|, HEADER_SIZE, longStart);
    assert (header + before) + OwnBytes(tree, HEADER_SIZE, longStart)
           == header + (before + OwnBytes(tree, HEADER_SIZE, longStart));
  }
}
