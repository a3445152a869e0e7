/** The byte layout of an exported index, and the tree that can be read at an address of it.
    Numbers are little-endian. An inner node is an 8-byte header (2 bits of type, 62 bits of
    size) followed by entries of a 4-byte token and a 4- or 8-byte offset; a leaf is one
    8-byte word (2 bits of type, 30 bits of hits, 32 bits of formula id). Offsets count units
    of 4 bytes backwards from the node that holds them. */
module Sectors {
  import opened Tokens
  import opened Tries
  import opened Wrappers

  const ALLOC_UNIT := 4
  const HEADER_SIZE := 28
  const NODE_SIZE := 8
  const INTERNAL_NODE := 1
  const LONG_INTERNAL_NODE := 2
  const LEAF_NODE := 3

  /** The k low bytes of n, least significant first. */
  function Bytes(n: nat, k: nat): (s: seq<Byte>)
    ensures |s| == k
  {
    if k == 0 then [] else [n % 0x100] + Bytes(n / 0x100, k - 1)
  }

  function Number(s: seq<Byte>): nat
  {
    if s == [] then 0 else s[0] + 0x100 * Number(s[1..])
  }

  function Pow256(k: nat): (r: nat)
    ensures r > 0
  {
    if k == 0 then 1 else 0x100 * Pow256(k - 1)
  }

  /** k bytes hold exactly the numbers below 256^k. */
  lemma {:induction false} NumberOfBytes(n: nat, k: nat)
    requires n < Pow256(k)
    ensures Number(Bytes(n, k)) == n
    decreases k
  {
    if k > 0 {
      NumberOfBytes(n / 0x100, k - 1);
      assert Bytes(n, k)[1..] == Bytes(n / 0x100, k - 1);
    }
  }

  lemma {:induction false} BytesOfNumber(s: seq<Byte>)
    ensures Bytes(Number(s), |s|) == s
    decreases |s|
  {
    if s != [] {
      BytesOfNumber(s[1..]);
      var n := Number(s[1..]);
      assert Number(s) % 0x100 == s[0] && Number(s) / 0x100 == n;
    }
  }

  /** The least significant byte comes first. */
  lemma LittleEndian(n: nat)
    ensures Bytes(n, 4) == [n % 0x100, n / 0x100 % 0x100, n / 0x1_0000 % 0x100, n / 0x100_0000 % 0x100]
  {
    var a, b, c := n / 0x100, n / 0x100 / 0x100, n / 0x100 / 0x100 / 0x100;
    assert Bytes(n, 4) == [n % 0x100] + Bytes(a, 3) && Bytes(a, 3) == [a % 0x100] + Bytes(b, 2);
    assert Bytes(b, 2) == [b % 0x100] + Bytes(c, 1) && Bytes(c, 1) == [c % 0x100] + Bytes(c / 0x100, 0);
  }

  function Load(m: seq<Byte>, a: nat, k: nat): nat
    requires a + k <= |m|
  {
    Number(m[a..a + k])
  }

  // ---------------------------------------------------------------- node fields

  function NodeType(m: seq<Byte>, a: nat): nat
    requires a + NODE_SIZE <= |m|
  {
    m[a] % 4
  }

  function NodeSize(m: seq<Byte>, a: nat): nat
    requires a + NODE_SIZE <= |m|
  {
    Load(m, a, NODE_SIZE) / 4
  }

  function LeafHits(m: seq<Byte>, a: nat): nat
    requires a + NODE_SIZE <= |m|
  {
    Load(m, a, 4) / 4
  }

  function LeafId(m: seq<Byte>, a: nat): nat
    requires a + NODE_SIZE <= |m|
  {
    Load(m, a + 4, 4)
  }

  function OffsetSize(longOffsets: bool): nat {
    if longOffsets then 8 else 4
  }

  function EntrySize(longOffsets: bool): nat {
    4 + OffsetSize(longOffsets)
  }

  /** The size of i entries. */
  function EntriesSize(longOffsets: bool, i: nat): nat {
    if longOffsets then 12 * i else 8 * i
  }

  /** The address of entry i of the inner node at a. */
  function EntryAddress(a: nat, longOffsets: bool, i: nat): nat {
    a + NODE_SIZE + EntriesSize(longOffsets, i)
  }

  /** Inner nodes whose entries lie inside the sector. */
  predicate IsInner(m: seq<Byte>, a: nat)
  {
    && a + NODE_SIZE <= |m|
    && NodeType(m, a) in {INTERNAL_NODE, LONG_INTERNAL_NODE}
    && EntryAddress(a, NodeType(m, a) == LONG_INTERNAL_NODE, NodeSize(m, a)) <= |m|
  }

  function EntryToken(m: seq<Byte>, a: nat, i: nat): Token
    requires IsInner(m, a) && i < NodeSize(m, a)
  {
    var e := EntryAddress(a, NodeType(m, a) == LONG_INTERNAL_NODE, i);
    TokenOfBytes(m[e..e + 4])
  }

  function EntryOffset(m: seq<Byte>, a: nat, i: nat): nat
    requires IsInner(m, a) && i < NodeSize(m, a)
  {
    var longOffsets := NodeType(m, a) == LONG_INTERNAL_NODE;
    Load(m, EntryAddress(a, longOffsets, i) + 4, OffsetSize(longOffsets))
  }

  function TokenOfBytes(s: seq<Byte>): (tok: Token)
    requires |s| == 4
    ensures tok.Bytes() == s
  {
    Token(s[1] as int + 0x100 * (s[2] as int) + 0x1_0000 * (s[3] as int), s[0])
  }

  lemma TokenRoundTrip(tok: Token)
    ensures TokenOfBytes(tok.Bytes()) == tok
  {
  }

  // ---------------------------------------------------------------- reading a tree

  /** The tree at address a. Offsets must be positive, so children lie at lower addresses. */
  function ReadTree(m: seq<Byte>, a: nat): Option<Trie>
    decreases a, 1, 0
  {
    if IsInner(m, a) then
      var kids := ReadKids(m, a, 0);
      if kids.None? then None else Some(Inner(kids.value))
    else if a + NODE_SIZE <= |m| && NodeType(m, a) == LEAF_NODE then
      Some(Leaf(LeafId(m, a), LeafHits(m, a)))
    else
      None
  }

  /** The children from entry i on. */
  function ReadKids(m: seq<Byte>, a: nat, i: nat): (r: Option<seq<Edge<Trie>>>)
    requires IsInner(m, a) && i <= NodeSize(m, a)
    ensures r.Some? ==> |r.value| == NodeSize(m, a) - i
    decreases a, 0, 1 + NodeSize(m, a) - i
  {
    if i == NodeSize(m, a) then Some([])
    else
      var back := ALLOC_UNIT * EntryOffset(m, a, i);
      if !(0 < back <= a) then None
      else
        var kid := ReadTree(m, a - back);
        var rest := ReadKids(m, a, i + 1);
        if kid.None? || rest.None? then None
        else Some([Edge(EntryToken(m, a, i), kid.value)] + rest.value)
  }

  /** Entry i of a readable node gives child i of its tree. */
  lemma {:induction false} KidAt(m: seq<Byte>, a: nat, j: nat, i: nat)
    requires IsInner(m, a) && j <= i < NodeSize(m, a) && ReadKids(m, a, j).Some?
    ensures 0 < ALLOC_UNIT * EntryOffset(m, a, i) <= a
    ensures var kid := ReadTree(m, a - ALLOC_UNIT * EntryOffset(m, a, i));
            kid.Some? && ReadKids(m, a, j).value[i - j] == Edge(EntryToken(m, a, i), kid.value)
    decreases i - j
  {
    if j < i {
      KidAt(m, a, j + 1, i);
    }
  }

  /** Where child i of the readable node at a lies. */
  function KidAddress(m: seq<Byte>, a: nat, i: nat): (r: nat)
    requires IsInner(m, a) && i < NodeSize(m, a) && ReadKids(m, a, 0).Some?
    ensures r < a && r == a - ALLOC_UNIT * EntryOffset(m, a, i)
    ensures ReadTree(m, r).Some?
    ensures ReadKids(m, a, 0).value[i] == Edge(EntryToken(m, a, i), ReadTree(m, r).value)
  {
    KidAt(m, a, 0, i);
    a - ALLOC_UNIT * EntryOffset(m, a, i)
  }
}
