/** Reading what the export wrote. */
module SectorReadBack {
  import opened Tokens
  import opened Tries
  import opened Sectors
  import opened SectorLayout
  import opened Wrappers

  /** The tree with leaf fields cut to the width of their bit-fields. */
  ghost function Truncated(t: Trie): Trie
    decreases t, 0
  {
    match t
    case Leaf(id, hits) => Leaf(id % TWO_32, hits % TWO_30)
    case Inner(kids) => Inner(TruncatedKids(t, 0))
  }

  ghost function TruncatedKids(t: Trie, i: nat): (r: seq<Edge<Trie>>)
    requires t.Inner? && i <= |t.kids|
    ensures |r| == |t.kids| - i
    decreases t, 0, |t.kids| - i
  {
    if i == |t.kids| then []
    else [Edge(t.kids[i].tok, Truncated(t.kids[i].node))] + TruncatedKids(t, i + 1)
  }

  /** All leaf fields fit their bit-fields. */
  ghost predicate FieldsFit(t: Trie)
    decreases t
  {
    match t
    case Leaf(id, hits) => id < TWO_32 && hits < TWO_30
    case Inner(kids) => forall i | 0 <= i < |kids| :: FieldsFit(kids[i].node)
  }

  /** Truncation loses nothing exactly on the trees that fit. */
  lemma {:induction false} TruncatedIffFieldsFit(t: Trie)
    ensures Truncated(t) == t <==> FieldsFit(t)
    decreases t, 1
  {
    if t.Inner? {
      TruncatedKidsIffFieldsFit(t, 0);
      assert t.kids[0..] == t.kids;
    }
  }

  lemma {:induction false} TruncatedKidsIffFieldsFit(t: Trie, i: nat)
    requires t.Inner? && i <= |t.kids|
    ensures TruncatedKids(t, i) == t.kids[i..] <==> forall j | i <= j < |t.kids| :: FieldsFit(t.kids[j].node)
    decreases t, 0, |t.kids| - i
  {
    if i < |t.kids| {
      TruncatedIffFieldsFit(t.kids[i].node);
      TruncatedKidsIffFieldsFit(t, i + 1);
      var rest := TruncatedKids(t, i + 1);
      var head := Edge(t.kids[i].tok, Truncated(t.kids[i].node));
      assert t.kids[i..] == [t.kids[i]] + t.kids[i + 1..];
      assert [head] + rest == t.kids[i..] <==> head == t.kids[i] && rest == t.kids[i + 1..] by {
        assert ([head] + rest)[0] == head && ([head] + rest)[1..] == rest;
        assert t.kids[i..][0] == t.kids[i] && t.kids[i..][1..] == t.kids[i + 1..];
      }
    }
  }

  // ---------------------------------------------------------------- bytes at a place

  /** The sector m holds the bytes s from address a on. */
  ghost predicate Holds(m: seq<Byte>, a: nat, s: seq<Byte>)
  {
    a + |s| <= |m| && m[a..a + |s|] == s
  }

  lemma HoldsParts(m: seq<Byte>, a: nat, s: seq<Byte>, t: seq<Byte>)
    requires Holds(m, a, s + t)
    ensures Holds(m, a, s) && Holds(m, a + |s|, t)
  {
    assert (s + t)[..|s|] == s && (s + t)[|s|..] == t;
    assert m[a..a + |s|] == m[a..a + |s + t|][..|s|];
    assert m[a + |s|..a + |s| + |t|] == m[a..a + |s + t|][|s|..];
  }

  lemma LoadHeld(m: seq<Byte>, a: nat, n: nat, k: nat)
    requires Holds(m, a, Bytes(n, k)) && n < Pow256(k)
    ensures Load(m, a, k) == n
  {
    NumberOfBytes(n, k);
  }

  lemma Pow256Values()
    ensures Pow256(4) == TWO_32 && Pow256(8) == TWO_64
  {
    assert Pow256(2) == 0x1_0000;
    assert Pow256(3) == 0x100 * Pow256(2);
    assert Pow256(4) == 0x100 * Pow256(3);
    assert Pow256(5) == 0x100 * Pow256(4);
    assert Pow256(6) == 0x100 * Pow256(5);
    assert Pow256(7) == 0x100 * Pow256(6);
  }

  lemma LeafRead(m: seq<Byte>, a: nat, id: nat, hits: nat)
    requires Holds(m, a, LeafBytes(id, hits))
    ensures ReadTree(m, a) == Some(Leaf(id % TWO_32, hits % TWO_30))
  {
    var low, high := LEAF_NODE + 4 * (hits % TWO_30), id % TWO_32;
    Pow256Values();
    HoldsParts(m, a, Bytes(low, 4), Bytes(high, 4));
    LoadHeld(m, a, low, 4);
    LoadHeld(m, a + 4, high, 4);
    LowByte(m, a, low, 4);
  }

  /** The first byte of a stored number has its two low bits. */
  lemma LowByte(m: seq<Byte>, a: nat, n: nat, k: nat)
    requires k > 0 && Holds(m, a, Bytes(n, k))
    ensures m[a] % 4 == n % 4
  {
    assert m[a] == m[a..a + k][0];
    ModTwice(n);
  }

  lemma ModTwice(n: nat)
    ensures n % 0x100 % 4 == n % 4
  {
  }

  lemma HeaderRead(m: seq<Byte>, a: nat, longOffsets: bool, size: nat)
    requires Holds(m, a, HeaderBytes(longOffsets, size)) && size < TWO_32
    requires a + NODE_SIZE + EntriesSize(longOffsets, size) <= |m|
    ensures IsInner(m, a) && NodeSize(m, a) == size && (NodeType(m, a) == LONG_INTERNAL_NODE <==> longOffsets)
  {
    var n := (if longOffsets then LONG_INTERNAL_NODE else INTERNAL_NODE) + 4 * size;
    Pow256Values();
    LoadHeld(m, a, n, 8);
    LowByte(m, a, n, 8);
  }

  lemma {:induction false} EntryHeld(m: seq<Byte>, e: nat, kids: seq<Edge<Trie>>, offs: seq<nat>, here: nat,
                                     longOffsets: bool, n: nat, i: nat)
    requires i < n <= |kids| == |offs| && Holds(m, e, EntryBytes(kids, offs, here, longOffsets, n))
    ensures Holds(m, e + EntriesSize(longOffsets, i), OneEntry(kids[i].tok, Distance(here, offs[i]), longOffsets))
    decreases n
  {
    HoldsParts(m, e, EntryBytes(kids, offs, here, longOffsets, n - 1),
               OneEntry(kids[n - 1].tok, Distance(here, offs[n - 1]), longOffsets));
    if i < n - 1 {
      EntryHeld(m, e, kids, offs, here, longOffsets, n - 1, i);
    }
  }

  lemma EntryRead(m: seq<Byte>, a: nat, tok: Token, off: nat, longOffsets: bool, i: nat)
    requires IsInner(m, a) && i < NodeSize(m, a) && (NodeType(m, a) == LONG_INTERNAL_NODE <==> longOffsets)
    requires Holds(m, EntryAddress(a, longOffsets, i), OneEntry(tok, off, longOffsets))
    requires off < if longOffsets then TWO_64 else TWO_32
    ensures EntryToken(m, a, i) == tok && EntryOffset(m, a, i) == off
  {
    var e := EntryAddress(a, longOffsets, i);
    Pow256Values();
    HoldsParts(m, e, tok.Bytes(), Bytes(off, OffsetSize(longOffsets)));
    TokenRoundTrip(tok);
    LoadHeld(m, e + 4, off, OffsetSize(longOffsets));
  }

  // ---------------------------------------------------------------- a whole tree

  /** Wherever a sector holds what was written for t, t can be read there, up to truncation. */
  lemma {:induction false} ReadBack(m: seq<Byte>, t: Trie, start: nat, longStart: nat)
    requires Dense(t) && start % ALLOC_UNIT == 0 && Holds(m, start, Written(t, start, longStart))
    requires |m| < TWO_34 && longStart <= TWO_32
    ensures ReadTree(m, Address(t, start, longStart)) == Some(Truncated(t))
    decreases t, 1, 0
  {
    if t.Leaf? {
      LeafRead(m, start, t.id, t.hits);
    } else {
      HoldsParts(m, start, Before(t, |t.kids|, start, longStart), OwnBytes(t, start, longStart));
      ReadBackKids(m, t, start, longStart, 0);
    }
  }

  /** The node of t, held at its address, is an inner node whose entries tell the keys and the
      distances of the children. */
  lemma NodeRead(m: seq<Byte>, t: Trie, start: nat, longStart: nat)
    requires Dense(t) && t.Inner? && start % ALLOC_UNIT == 0 && |m| < TWO_34 && longStart <= TWO_32
    requires Holds(m, Address(t, start, longStart), OwnBytes(t, start, longStart))
    ensures var a := Address(t, start, longStart);
            && IsInner(m, a) && NodeSize(m, a) == |t.kids|
            && forall i | 0 <= i < |t.kids| :: EntryReads(m, t, start, longStart, i)
  {
    hide Before, ReadTree, Number, Bytes, OneEntry, HeaderBytes;
    var a, offs := Address(t, start, longStart), Offsets(t, |t.kids|, start, longStart);
    var here := a / ALLOC_UNIT;
    var longOffsets := IsLong(offs, here, longStart);
    var entries := EntryBytes(t.kids, offs, here, longOffsets, |t.kids|);
    HoldsParts(m, a, HeaderBytes(longOffsets, |t.kids|), entries);
    HeaderRead(m, a, longOffsets, |t.kids|);
    WrittenAligned(t, start, longStart);
    OffsetsIncrease(t, |t.kids|, start, longStart);
    forall i | 0 <= i < |t.kids|
      ensures EntryReads(m, t, start, longStart, i)
    {
      EntryHeld(m, a + NODE_SIZE, t.kids, offs, here, longOffsets, |t.kids|, i);
      EntryRead(m, a, t.kids[i].tok, Distance(here, offs[i]), longOffsets, i);
    }
  }

  ghost predicate EntryReads(m: seq<Byte>, t: Trie, start: nat, longStart: nat, i: nat)
    requires Dense(t) && t.Inner? && i < |t.kids|
  {
    var a := Address(t, start, longStart);
    && IsInner(m, a) && NodeSize(m, a) == |t.kids|
    && EntryToken(m, a, i) == t.kids[i].tok
    && 0 < ALLOC_UNIT * EntryOffset(m, a, i) <= a
    && a - ALLOC_UNIT * EntryOffset(m, a, i) == ALLOC_UNIT * Offsets(t, |t.kids|, start, longStart)[i]
  }

  lemma {:induction false} ReadBackKids(m: seq<Byte>, t: Trie, start: nat, longStart: nat, i: nat)
    requires Dense(t) && t.Inner? && start % ALLOC_UNIT == 0 && |m| < TWO_34 && longStart <= TWO_32
    requires Holds(m, start, Before(t, |t.kids|, start, longStart))
    requires Holds(m, Address(t, start, longStart), OwnBytes(t, start, longStart))
    requires i <= |t.kids|
    ensures IsInner(m, Address(t, start, longStart)) && NodeSize(m, Address(t, start, longStart)) == |t.kids|
    ensures ReadKids(m, Address(t, start, longStart), i) == Some(TruncatedKids(t, i))
    decreases t, 0, |t.kids| - i
  {
    hide OwnBytes, Number, Bytes, IsInner, Written, Before, Address, Offsets, Holds;
    NodeRead(m, t, start, longStart);
    if i < |t.kids| {
      var from := start + |Before(t, i, start, longStart)|;
      ReadBackKids(m, t, start, longStart, i + 1);
      KidHeld(m, t, |t.kids|, start, longStart, i);
      BeforeAligned(t, i, start, longStart);
      ReadBack(m, t.kids[i].node, from, longStart);
      OffsetOfKid(t, |t.kids|, start, longStart, i);
      WrittenAligned(t.kids[i].node, from, longStart);
      assert EntryReads(m, t, start, longStart, i);
    }
  }

  /** The bytes of child i lie behind those of its elder siblings. */
  lemma {:induction false} KidHeld(m: seq<Byte>, t: Trie, n: nat, start: nat, longStart: nat, i: nat)
    requires Dense(t) && t.Inner? && i < n <= |t.kids| && Holds(m, start, Before(t, n, start, longStart))
    ensures var from := start + |Before(t, i, start, longStart)|;
            Holds(m, from, Written(t.kids[i].node, from, longStart))
    decreases n
  {
    hide Written;
    var s := Before(t, n - 1, start, longStart);
    HoldsParts(m, start, s, Written(t.kids[n - 1].node, start + |s|, longStart));
    if i < n - 1 {
      KidHeld(m, t, n - 1, start, longStart, i);
    }
  }

  lemma {:induction false} OffsetOfKid(t: Trie, n: nat, start: nat, longStart: nat, i: nat)
    requires Dense(t) && t.Inner? && i < n <= |t.kids|
    ensures Offsets(t, n, start, longStart)[i]
         == Address(t.kids[i].node, start + |Before(t, i, start, longStart)|, longStart) / ALLOC_UNIT
    decreases n
  {
    if i < n - 1 {
      OffsetOfKid(t, n - 1, start, longStart, i);
    }
  }
}
