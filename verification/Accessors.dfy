/** The two ways to read an index: the in-memory trie and the exported sector. The source picks
    one by a template argument; here the argument is the constructor of Index. */
module Accessors {
  import opened Tokens
  import opened Tries
  import opened Sectors
  import opened Wrappers
  import VectorMaps

  datatype Index = TmpIndex(tree: Trie) | SectorIndex(m: seq<Byte>, rootAddress: nat)
  datatype Node = TmpNode(t: Trie) | SectorNode(address: nat)

  /** A position among the children of a node. */
  datatype Iterator = Iterator(node: Node, pos: nat)

  /** n is a node of ix; in a sector, one from which a whole tree can be read. */
  ghost predicate IsNode(ix: Index, n: Node)
  {
    match ix
    case TmpIndex(_) => n.TmpNode?
    case SectorIndex(m, _) => n.SectorNode? && ReadTree(m, n.address).Some?
  }

  /** The tree below a node. */
  ghost function View(ix: Index, n: Node): Trie
    requires IsNode(ix, n)
  {
    match ix
    case TmpIndex(_) => n.t
    case SectorIndex(m, _) => ReadTree(m, n.address).value
  }

  function GetRootNode(ix: Index): Node {
    match ix
    case TmpIndex(t) => TmpNode(t)
    case SectorIndex(_, a) => SectorNode(a)
  }

  ghost predicate IsIndex(ix: Index)
  {
    IsNode(ix, GetRootNode(ix))
  }

  ghost predicate IsIterator(ix: Index, it: Iterator)
  {
    IsNode(ix, it.node) && View(ix, it.node).Inner? && it.pos < |View(ix, it.node).kids|
  }

  function GetChildrenIterator(ix: Index, n: Node): (it: Iterator)
    requires IsNode(ix, n) && View(ix, n).Inner?
    ensures it.node == n && it.pos == 0
  {
    Iterator(n, 0)
  }

  function HasNext(ix: Index, it: Iterator): (b: bool)
    requires IsIterator(ix, it)
    ensures b <==> it.pos + 1 < |View(ix, it.node).kids|
  {
    match ix
    case TmpIndex(_) => it.pos + 1 != |it.node.t.kids|
    case SectorIndex(m, _) => it.pos + 1 != NodeSize(m, it.node.address)
  }

  function Next(it: Iterator): Iterator {
    Iterator(it.node, it.pos + 1)
  }

  function GetToken(ix: Index, it: Iterator): (tok: Token)
    requires IsIterator(ix, it)
    ensures tok == View(ix, it.node).kids[it.pos].tok
  {
    match ix
    case TmpIndex(_) => it.node.t.kids[it.pos].tok
    case SectorIndex(m, _) =>
      KidAt(m, it.node.address, 0, it.pos);
      EntryToken(m, it.node.address, it.pos)
  }

  function GetArity(ix: Index, it: Iterator): Arity
    requires IsIterator(ix, it)
  {
    GetToken(ix, it).arity
  }

  function GetNode(ix: Index, it: Iterator): (n: Node)
    requires IsIterator(ix, it)
    ensures IsNode(ix, n) && View(ix, n) == View(ix, it.node).kids[it.pos].node
  {
    match ix
    case TmpIndex(_) => TmpNode(it.node.t.kids[it.pos].node)
    case SectorIndex(m, _) =>
      SectorNode(KidAddress(m, it.node.address, it.pos))
  }

  /** Binary search over the packed entries of a node; zero stands for absence. */
  method InodeGetChild(m: seq<Byte>, a: nat, token: Token) returns (off: nat)
    requires IsInner(m, a) && ReadKids(m, a, 0).Some? && Sorted(ReadKids(m, a, 0).value)
    ensures off == 0 <==> !HasKey(ReadKids(m, a, 0).value, token)
    ensures off != 0 ==> exists i | 0 <= i < NodeSize(m, a) ::
              EntryToken(m, a, i) == token && EntryOffset(m, a, i) == off
  {
    hide ReadKids, ReadTree, EntryToken, EntryOffset, NodeSize, Memcmp, Token.Bytes, Token.Rank, Load;
    ghost var kids := ReadKids(m, a, 0).value;
    var left, right := 0, NodeSize(m, a) as int - 1;
    while left <= right
      invariant 0 <= left <= right + 1 <= |kids|
      invariant forall i | 0 <= i < left :: kids[i].tok.Rank() < token.Rank()
      invariant forall i | right < i < |kids| :: token.Rank() < kids[i].tok.Rank()
    {
      var center := left + (right - left) / 2;
      ghost var kid := KidAddress(m, a, center);
      var entryToken := EntryToken(m, a, center);
      assert entryToken == kids[center].tok;
      var result := Memcmp(entryToken.Bytes(), token.Bytes());
      MemcmpIsRankOrder(entryToken, token);
      if result > 0 {
        right := center - 1;
      } else if result == 0 {
        return EntryOffset(m, a, center);
      } else {
        left := center + 1;
      }
    }
    return 0;
  }

  method GetChild(ix: Index, n: Node, token: Token) returns (child: Option<Node>)
    requires IsNode(ix, n) && View(ix, n).Inner? && Sorted(View(ix, n).kids)
    ensures child.None? <==> Child(View(ix, n), token).None?
    ensures child.Some? ==> IsNode(ix, child.value) && View(ix, child.value) == Child(View(ix, n), token).value
  {
    match ix {
      case TmpIndex(_) =>
        var i := VectorMaps.FindIndex(n.t.kids, token);
        if i == |n.t.kids| {
          return None;
        }
        ChildAt(n.t, i);
        return Some(TmpNode(n.t.kids[i].node));
      case SectorIndex(m, _) =>
        var off := InodeGetChild(m, n.address, token);
        if off == 0 {
          return None;
        }
        ghost var i :| 0 <= i < NodeSize(m, n.address) && EntryToken(m, n.address, i) == token
                       && EntryOffset(m, n.address, i) == off;
        ghost var kid := KidAddress(m, n.address, i);
        ChildAt(View(ix, n), i);
        return Some(SectorNode(n.address - ALLOC_UNIT * off));
    }
  }

  function GetFormulaId(ix: Index, n: Node): (id: nat)
    requires IsNode(ix, n) && View(ix, n).Leaf?
    ensures id == View(ix, n).id
  {
    match ix
    case TmpIndex(_) => n.t.id
    case SectorIndex(m, _) => LeafId(m, n.address)
  }

  function GetHitsCount(ix: Index, n: Node): (hits: nat)
    requires IsNode(ix, n) && View(ix, n).Leaf?
    ensures hits == View(ix, n).hits
  {
    match ix
    case TmpIndex(_) => n.t.hits
    case SectorIndex(m, _) => LeafHits(m, n.address)
  }
}
