/** A map from tokens kept as a vector sorted in memcmp order. */
module VectorMaps {
  import opened Tokens
  import opened Tries

  /** The finite map a sorted vector stands for. */
  ghost function Content<V>(data: seq<Edge<V>>): map<Token, V>
  {
    map k: Token | k in Keys(data) :: data[KeyIndex(data, k)].node
  }

  ghost function Keys<V>(data: seq<Edge<V>>): set<Token>
  {
    set i | 0 <= i < |data| :: data[i].tok
  }

  lemma ContentAt<V>(data: seq<Edge<V>>, i: nat)
    requires Sorted(data) && i < |data|
    ensures data[i].tok in Content(data) && Content(data)[data[i].tok] == data[i].node
  {
    var k := KeyIndex(data, data[i].tok);
    assert !(k < i) && !(i < k);
  }

  /** Binary search; the length of the vector stands for absence. */
  method FindIndex<V>(data: seq<Edge<V>>, key: Token) returns (index: nat)
    requires Sorted(data)
    ensures index <= |data|
    ensures index < |data| ==> data[index].tok == key
    ensures index == |data| <==> !HasKey(data, key)
  {
    var left, right := 0, |data| - 1;
    while left <= right
      invariant 0 <= left <= right + 1 <= |data|
      invariant forall i | 0 <= i < left :: data[i].tok.Rank() < key.Rank()
      invariant forall i | right < i < |data| :: key.Rank() < data[i].tok.Rank()
    {
      var center := left + (right - left) / 2;
      var result := Memcmp(data[center].tok.Bytes(), key.Bytes());
      MemcmpIsRankOrder(data[center].tok, key);
      if result > 0 {
        right := center - 1;
      } else if result == 0 {
        return center;
      } else {
        left := center + 1;
      }
    }
    return |data|;
  }

  class VectorMap<V> {
    var data: seq<Edge<V>>

    ghost predicate Valid()
      reads this
    {
      Sorted(data)
    }

    constructor ()
      ensures Valid() && data == []
    {
      data := [];
    }

    method Find(key: Token) returns (index: nat)
      requires Valid()
      ensures index <= |data|
      ensures index < |data| ==> data[index].tok == key
      ensures index == |data| <==> key !in Content(data)
    {
      index := FindIndex(data, key);
      assert HasKey(data, key) ==> key in Content(data) by {
        if HasKey(data, key) {
          ContentAt(data, KeyIndex(data, key));
        }
      }
    }

    /** Appends a new key and lets it sink to its place; an existing key is left alone. */
    method Insert(keyValue: Edge<V>) returns (index: nat, inserted: bool)
      requires Valid()
      modifies this
      ensures Valid()
      ensures inserted <==> keyValue.tok !in old(Content(data))
      ensures !inserted ==> data == old(data)
      ensures inserted ==> index <= |old(data)| && data == old(data)[..index] + [keyValue] + old(data)[index..]
      ensures index < |data| && data[index].tok == keyValue.tok
      ensures Content(data) == if inserted then old(Content(data))[keyValue.tok := keyValue.node]
                else old(Content(data))
    {
      var found := Find(keyValue.tok);
      if found < |data| {
        return found, false;
      }
      ghost var before := data;
      data := data + [keyValue];
      index := Sink(before);
      SinkStops(before, index, keyValue);
      InsertedSorted(before, index, keyValue);
      InsertedContent(before, data, index, keyValue);
      inserted := true;
    }

    /** Swaps the last element down past all larger keys. */
    method Sink(ghost before: seq<Edge<V>>) returns (i: nat)
      requires data != [] && before == data[..|data| - 1]
      modifies this
      ensures i <= |before| && data == before[..i] + [old(data)[|before|]] + before[i..]
      ensures i < |before| ==> old(data)[|before|].tok.Rank() < before[i].tok.Rank()
      ensures i > 0 ==> before[i - 1].tok.Rank() <= old(data)[|before|].tok.Rank()
    {
      ghost var e := data[|before|];
      i := |data| - 1;
      while i > 0 && Memcmp(data[i].tok.Bytes(), data[i - 1].tok.Bytes()) < 0
        invariant 0 <= i <= |before|
        invariant data == before[..i] + [e] + before[i..]
        invariant i < |before| ==> e.tok.Rank() < before[i].tok.Rank()
      {
        hide Memcmp, Token.Rank, Token.Bytes;
        assert data[i] == e && data[i - 1] == before[i - 1];
        MemcmpIsRankOrder(data[i].tok, data[i - 1].tok);
        var tmp := data[i];
        data := data[i := data[i - 1]];
        data := data[i - 1 := tmp];
        i := i - 1;
        assert data == before[..i] + [e] + before[i..];
      }
      if i > 0 {
        MemcmpIsRankOrder(data[i].tok, data[i - 1].tok);
      }
    }

    /** Assignment through the reference that Index gives. */
    method Assign(index: nat, value: V)
      requires Valid() && index < |data|
      modifies this
      ensures Valid() && data == old(data)[index := Edge(old(data)[index].tok, value)]
    {
      data := data[index := Edge(data[index].tok, value)];
    }

    /** The position of key, which is added with a default value when it is absent. */
    method Index(key: Token, default: V) returns (index: nat)
      requires Valid()
      modifies this
      ensures Valid() && index < |data| && data[index].tok == key
      ensures key in old(Content(data)) ==> data == old(data) && data[index].node == old(Content(data))[key]
      ensures key !in old(Content(data)) ==>
                && index <= |old(data)|
                && data == old(data)[..index] + [Edge(key, default)] + old(data)[index..]
                && Content(data) == old(Content(data))[key := default]
    {
      var inserted;
      index, inserted := Insert(Edge(key, default));
      ContentAt(data, index);
    }
  }

  /** A key that is not in the map is not equal to its neighbour either. */
  lemma SinkStops<V>(before: seq<Edge<V>>, i: nat, e: Edge<V>)
    requires Sorted(before) && i <= |before| && e.tok !in Content(before)
    requires i > 0 ==> before[i - 1].tok.Rank() <= e.tok.Rank()
    ensures i > 0 ==> before[i - 1].tok.Rank() < e.tok.Rank()
  {
    if i > 0 && before[i - 1].tok.Rank() == e.tok.Rank() {
      RankInjective(before[i - 1].tok, e.tok);
      ContentAt(before, i - 1);
      assert false;
    }
  }

  /** Putting a key between smaller and larger keys keeps the order. */
  lemma InsertedSorted<V>(before: seq<Edge<V>>, i: nat, e: Edge<V>)
    requires Sorted(before) && i <= |before|
    requires i > 0 ==> before[i - 1].tok.Rank() < e.tok.Rank()
    requires i < |before| ==> e.tok.Rank() < before[i].tok.Rank()
    ensures Sorted(before[..i] + [e] + before[i..])
  {
    var after := before[..i] + [e] + before[i..];
    forall x, y | 0 <= x < y < |after|
      ensures after[x].tok.Rank() < after[y].tok.Rank()
    {
      var x', y' := if x < i then x else x - 1, if y < i then y else y - 1;
      if x != i && y != i {
        assert after[x] == before[x'] && after[y] == before[y'];
      } else if x == i {
        assert y' == i || before[i].tok.Rank() < before[y'].tok.Rank();
      } else {
        assert x' == i - 1 || before[x'].tok.Rank() < before[i - 1].tok.Rank();
      }
    }
  }

  /** A new key in the vector is one new binding of the map. */
  lemma InsertedContent<V>(before: seq<Edge<V>>, after: seq<Edge<V>>, i: nat, e: Edge<V>)
    requires Sorted(before) && Sorted(after)
    requires i <= |before| && after == before[..i] + [e] + before[i..]
    ensures Content(after) == Content(before)[e.tok := e.node]
  {
    assert after[i] == e;
    ContentAt(after, i);
    forall k | k in Content(before)
      ensures k != e.tok ==> k in Content(after) && Content(after)[k] == Content(before)[k]
    {
      OldKeyStays(before, after, i, e, k);
    }
    forall k | k in Content(after) && k != e.tok
      ensures k in Content(before)
    {
      OtherKeysOld(before, after, i, e, k);
    }
  }

  lemma OldKeyStays<V>(before: seq<Edge<V>>, after: seq<Edge<V>>, i: nat, e: Edge<V>, k: Token)
    requires Sorted(before) && Sorted(after)
    requires i <= |before| && after == before[..i] + [e] + before[i..]
    requires k in Content(before)
    ensures k in Content(after) && (k != e.tok ==> Content(after)[k] == Content(before)[k])
  {
    var j := KeyIndex(before, k);
    var j' := if j < i then j else j + 1;
    assert after[j'] == before[j];
    ContentAt(before, j);
    ContentAt(after, j');
  }

  lemma OtherKeysOld<V>(before: seq<Edge<V>>, after: seq<Edge<V>>, i: nat, e: Edge<V>, k: Token)
    requires Sorted(before) && Sorted(after)
    requires i <= |before| && after == before[..i] + [e] + before[i..]
    requires k in Content(after) && k != e.tok
    ensures k in Content(before)
  {
    var j := KeyIndex(after, k);
    var j' := if j < i then j else j - 1;
    assert before[j'] == after[j];
    ContentAt(before, j');
  }
}
