/** What the export writes, as a function of the tree: each node after its children, so that
    every offset points backwards. longStart is the smallest relative offset that makes a node
    use 8-byte offsets. Reading the bytes back gives the tree. */
module SectorLayout {
  import opened Tokens
  import opened Tries
  import opened Sectors
  import opened Wrappers

  /** Bit-fields of 30 bits of hits and 32 bits of formula id. */
  function LeafBytes(id: nat, hits: nat): (s: seq<Byte>)
    ensures |s| == NODE_SIZE
  {
    Bytes(LEAF_NODE + 4 * (hits % TWO_30), 4) + Bytes(id % TWO_32, 4)
  }

  function HeaderBytes(longOffsets: bool, size: nat): (s: seq<Byte>)
    ensures |s| == NODE_SIZE
  {
    Bytes((if longOffsets then LONG_INTERNAL_NODE else INTERNAL_NODE) + 4 * size, NODE_SIZE)
  }

  function OneEntry(tok: Token, off: nat, longOffsets: bool): (s: seq<Byte>)
    ensures |s| == EntrySize(longOffsets)
  {
    tok.Bytes() + Bytes(off, OffsetSize(longOffsets))
  }

  /** How far off lies behind here. */
  function Distance(here: nat, off: nat): nat {
    if off <= here then here - off else 0
  }

  /** The entries of the first i children; here and offs are in units of 4 bytes. */
  ghost function EntryBytes(kids: seq<Edge<Trie>>, offs: seq<nat>, here: nat, longOffsets: bool, i: nat): (s: seq<Byte>)
    requires i <= |kids| == |offs|
    ensures |s| == EntriesSize(longOffsets, i)
  {
    if i == 0 then []
    else
      EntryBytes(kids, offs, here, longOffsets, i - 1)
      + OneEntry(kids[i - 1].tok, Distance(here, offs[i - 1]), longOffsets)
  }

  /** A node is long when its furthest child, the first one, is too far back. */
  ghost predicate IsLong(offs: seq<nat>, here: nat, longStart: nat)
    requires offs != []
  {
    Distance(here, offs[0]) >= longStart
  }

  ghost function NodeBytes(kids: seq<Edge<Trie>>, offs: seq<nat>, here: nat, longStart: nat): (s: seq<Byte>)
    requires kids != [] && |kids| == |offs|
    ensures |s| == NODE_SIZE + EntriesSize(IsLong(offs, here, longStart), |kids|)
  {
    var longOffsets := IsLong(offs, here, longStart);
    HeaderBytes(longOffsets, |kids|) + EntryBytes(kids, offs, here, longOffsets, |kids|)
  }

  /** Every inner node has a child. */
  ghost predicate Dense(t: Trie)
    decreases t
  {
    t.Inner? ==> t.kids != [] && forall i | 0 <= i < |t.kids| :: Dense(t.kids[i].node)
  }

  lemma {:induction false} WellFormedDense(t: Trie, n: nat)
    requires WellFormed(t, n)
    ensures Dense(t)
    decreases t
  {
    if t.Inner? {
      forall i | 0 <= i < |t.kids|
        ensures Dense(t.kids[i].node)
      {
        WellFormedDense(t.kids[i].node, n - 1 + t.kids[i].tok.arity);
      }
    }
  }

  // ---------------------------------------------------------------- the bytes of a tree

  /** All that is written for t when the sector has start bytes: its subtrees, then its node. */
  ghost function Written(t: Trie, start: nat, longStart: nat): seq<Byte>
    requires Dense(t)
    decreases t, 2, 0
  {
    match t
    case Leaf(id, hits) => LeafBytes(id, hits)
    case Inner(kids) => Before(t, |kids|, start, longStart) + OwnBytes(t, start, longStart)
  }

  /** The node of t itself. */
  ghost function OwnBytes(t: Trie, start: nat, longStart: nat): seq<Byte>
    requires Dense(t) && t.Inner?
    decreases t, 1, |t.kids| + 1
  {
    NodeBytes(t.kids, Offsets(t, |t.kids|, start, longStart), Address(t, start, longStart) / ALLOC_UNIT, longStart)
  }

  /** The subtrees of the first i children. */
  ghost function Before(t: Trie, i: nat, start: nat, longStart: nat): seq<Byte>
    requires Dense(t) && t.Inner? && i <= |t.kids|
    decreases t, 0, i
  {
    if i == 0 then []
    else
      var s := Before(t, i - 1, start, longStart);
      s + Written(t.kids[i - 1].node, start + |s|, longStart)
  }

  /** Where the node of t lies. */
  ghost function Address(t: Trie, start: nat, longStart: nat): (a: nat)
    requires Dense(t)
    ensures start <= a
    decreases t, 1, 0
  {
    if t.Leaf? then start else start + |Before(t, |t.kids|, start, longStart)|
  }

  /** The unit offsets of the nodes of the first i children. */
  ghost function Offsets(t: Trie, i: nat, start: nat, longStart: nat): (offs: seq<nat>)
    requires Dense(t) && t.Inner? && i <= |t.kids|
    ensures |offs| == i
    decreases t, 1, i
  {
    if i == 0 then []
    else
      var s := Before(t, i - 1, start, longStart);
      Offsets(t, i - 1, start, longStart) + [Address(t.kids[i - 1].node, start + |s|, longStart) / ALLOC_UNIT]
  }

  /** Sizes and addresses are multiples of 4, and a node lies inside what is written for it. */
  lemma {:induction false} WrittenAligned(t: Trie, start: nat, longStart: nat)
    requires Dense(t) && start % ALLOC_UNIT == 0
    ensures |Written(t, start, longStart)| % ALLOC_UNIT == 0
    ensures Address(t, start, longStart) % ALLOC_UNIT == 0
    ensures Address(t, start, longStart) + NODE_SIZE <= start + |Written(t, start, longStart)|
    decreases t, 1, 0
  {
    hide Before, OwnBytes, LeafBytes;
    if t.Inner? {
      BeforeAligned(t, |t.kids|, start, longStart);
      OwnAligned(t, start, longStart);
    }
  }

  lemma OwnAligned(t: Trie, start: nat, longStart: nat)
    requires Dense(t) && t.Inner?
    ensures |OwnBytes(t, start, longStart)| % ALLOC_UNIT == 0 && |OwnBytes(t, start, longStart)| >= NODE_SIZE
  {
    hide Address, Offsets, IsLong;
  }

  lemma {:induction false} BeforeAligned(t: Trie, i: nat, start: nat, longStart: nat)
    requires Dense(t) && t.Inner? && i <= |t.kids| && start % ALLOC_UNIT == 0
    ensures |Before(t, i, start, longStart)| % ALLOC_UNIT == 0
    decreases t, 0, i
  {
    hide Written, Address;
    if i > 0 {
      var n := |Before(t, i - 1, start, longStart)|;
      BeforeAligned(t, i - 1, start, longStart);
      SumAligned(start, n);
      WrittenAligned(t.kids[i - 1].node, start + n, longStart);
      SumAligned(n, |Written(t.kids[i - 1].node, start + n, longStart)|);
    }
  }

  lemma SumAligned(a: nat, b: nat)
    requires a % ALLOC_UNIT == 0 && b % ALLOC_UNIT == 0
    ensures (a + b) % ALLOC_UNIT == 0
  {
  }

  /** Children lie before their parent, each after its elder siblings; so the first child is the
      furthest one, and no offset is zero. */
  lemma {:induction false} OffsetsIncrease(t: Trie, i: nat, start: nat, longStart: nat)
    requires Dense(t) && t.Inner? && i <= |t.kids| && start % ALLOC_UNIT == 0
    ensures forall j | 0 <= j < i ::
              start <= ALLOC_UNIT * Offsets(t, i, start, longStart)[j] < start + |Before(t, i, start, longStart)|
    ensures forall j, k | 0 <= j < k < i :: Offsets(t, i, start, longStart)[j] < Offsets(t, i, start, longStart)[k]
    decreases i
  {
    hide Written, Address, Before, Offsets;
    if i > 0 {
      var n := |Before(t, i - 1, start, longStart)|;
      var last := Address(t.kids[i - 1].node, start + n, longStart);
      OffsetsIncrease(t, i - 1, start, longStart);
      BeforeAligned(t, i - 1, start, longStart);
      SumAligned(start, n);
      WrittenAligned(t.kids[i - 1].node, start + n, longStart);
      OffsetsStep(t, i, start, longStart);
      WholeUnits(last);
    } else {
      NoOffsets(t, start, longStart);
    }
  }

  lemma WholeUnits(a: nat)
    requires a % ALLOC_UNIT == 0
    ensures ALLOC_UNIT * (a / ALLOC_UNIT) == a
  {
  }

  lemma NoOffsets(t: Trie, start: nat, longStart: nat)
    requires Dense(t) && t.Inner?
    ensures Offsets(t, 0, start, longStart) == []
  {
  }

  lemma OffsetsStep(t: Trie, i: nat, start: nat, longStart: nat)
    requires Dense(t) && t.Inner? && 0 < i <= |t.kids|
    ensures var n, kid := |Before(t, i - 1, start, longStart)|, t.kids[i - 1].node;
            && |Before(t, i, start, longStart)| == n + |Written(kid, start + n, longStart)|
            && Offsets(t, i, start, longStart)
               == Offsets(t, i - 1, start, longStart) + [Address(kid, start + n, longStart) / ALLOC_UNIT]
  {
    hide Written, Address;
  }

  lemma OneWritten(tok: Token, id: nat, hits: nat, longStart: nat)
    ensures var t, longOffsets := Inner([Edge(tok, Leaf(id, hits))]), 2 >= longStart;
            && Dense(t)
            && Written(t, HEADER_SIZE, longStart)
               == LeafBytes(id, hits) + (HeaderBytes(longOffsets, 1) + OneEntry(tok, 2, longOffsets))
  {
    hide LeafBytes, HeaderBytes, OneEntry;
    var t := Inner([Edge(tok, Leaf(id, hits))]);
    assert Dense(t.kids[0].node);
    assert Before(t, 0, HEADER_SIZE, longStart) == [];
    assert Before(t, 1, HEADER_SIZE, longStart) == [] + LeafBytes(id, hits);
    assert Address(t, HEADER_SIZE, longStart) == 36 && Address(t.kids[0].node, HEADER_SIZE, longStart) == 28;
    assert Offsets(t, 0, HEADER_SIZE, longStart) == [] && Offsets(t, 1, HEADER_SIZE, longStart) == [] + [7];
    assert EntryBytes(t.kids, [7], 9, 2 >= longStart, 0) == [];
    assert EntryBytes(t.kids, [7], 9, 2 >= longStart, 1) == [] + OneEntry(tok, 2, 2 >= longStart);
  }

  /** The bytes of an index with one formula of one token: the leaf with its type, hits and id, then the root
      with its type and number of children, the token, and the distance of two units back to the leaf. */
  lemma OneFormulaWritten()
    ensures var t := Inner([Edge(Token(0x03_0201, 0), Leaf(0x0605_0403, 9))]);
            Dense(t)
            && Written(t, HEADER_SIZE, TWO_32)
                == [39, 0, 0, 0, 3, 4, 5, 6] + ([5, 0, 0, 0, 0, 0, 0, 0] + [0, 1, 2, 3, 2, 0, 0, 0])
            && Written(t, HEADER_SIZE, 2)
                == [39, 0, 0, 0, 3, 4, 5, 6] + ([6, 0, 0, 0, 0, 0, 0, 0] + [0, 1, 2, 3, 2, 0, 0, 0, 0, 0, 0, 0])
  {
    hide Bytes, Written, Dense;
    OneWritten(Token(0x03_0201, 0), 0x0605_0403, 9, TWO_32);
    OneWritten(Token(0x03_0201, 0), 0x0605_0403, 9, 2);
    LittleEndian(39);
    LittleEndian(0x0605_0403);
    LittleEndian(2);
    EightBytes(5);
    EightBytes(6);
    EightBytes(2);
  }

  lemma EightBytes(n: Byte)
    ensures Bytes(n, 8) == [n, 0, 0, 0, 0, 0, 0, 0]
  {
    assert Bytes(n, 8) == [n] + Bytes(0, 7) && Bytes(0, 7) == [0] + Bytes(0, 6) && Bytes(0, 6) == [0] + Bytes(0, 5);
    assert Bytes(0, 5) == [0] + Bytes(0, 4) && Bytes(0, 4) == [0] + Bytes(0, 3) && Bytes(0, 3) == [0] + Bytes(0, 2);
    assert Bytes(0, 2) == [0] + Bytes(0, 1) && Bytes(0, 1) == [0] + Bytes(0, 0);
  }
}
