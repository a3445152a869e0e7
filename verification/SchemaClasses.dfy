/** Grouping positions by a key and ordering the groups by size. */
module SchemaClasses {
  import opened SchemaHashes
  import opened Tokens
  import opened Wrappers

  /** The positions of k, in increasing order. */
  function Members<K(==)>(keys: seq<K>, k: K): (r: seq<nat>)
    ensures forall i | 0 <= i < |r| :: r[i] < |keys| && keys[r[i]] == k
    ensures forall i | 0 <= i < |keys| && keys[i] == k :: i in r
    ensures forall i, j | 0 <= i < j < |r| :: r[i] < r[j]
  {
    if keys == [] then []
    else Members(Init(keys), k) + if Last(keys) == k then [|keys| - 1] else []
  }

  function KeySet<K(==)>(keys: seq<K>): set<K> {
    set k | k in keys
  }

  lemma MembersSnoc<K>(keys: seq<K>, x: K, k: K)
    ensures Members(keys + [x], k) == Members(keys, k) + if x == k then [|keys|] else []
  {
    assert Init(keys + [x]) == keys && Last(keys + [x]) == x;
  }

  lemma {:induction false} NoMembers<K>(keys: seq<K>, k: K)
    requires k !in keys
    ensures Members(keys, k) == []
  {
    if keys != [] {
      NoMembers(Init(keys), k);
    }
  }

  /** A group: the key it is filed under and its positions. */
  type Group = (string, seq<nat>)

  ghost predicate Descending(gs: seq<Group>)
  {
    forall i, j | 0 <= i < j < |gs| :: |gs[i].1| >= |gs[j].1|
  }

  /** Stands for the library's sort with the comparison of group sizes. */
  method SortBySize(groups: seq<Group>) returns (sorted: seq<Group>)
    ensures multiset(sorted) == multiset(groups) && Descending(sorted)
  {
    sorted := [];
    var n := 0;
    while n < |groups|
      invariant 0 <= n <= |groups|
      invariant multiset(sorted) == multiset(groups[..n]) && Descending(sorted)
    {
      assert groups[..n + 1] == groups[..n] + [groups[n]];
      sorted := InsertBySize(sorted, groups[n]);
      n := n + 1;
    }
    assert groups[..n] == groups;
  }

  method InsertBySize(groups: seq<Group>, g: Group) returns (sorted: seq<Group>)
    requires Descending(groups)
    ensures multiset(sorted) == multiset(groups) + multiset{g} && Descending(sorted)
  {
    var i := 0;
    while i < |groups| && |groups[i].1| >= |g.1|
      invariant 0 <= i <= |groups| && (i > 0 ==> |groups[i - 1].1| >= |g.1|)
    {
      i := i + 1;
    }
    sorted := groups[..i] + [g] + groups[i..];
    InsertKeepsElements(groups, i, g);
    InsertKeepsOrder(groups, i, g);
  }

  lemma InsertKeepsOrder(groups: seq<Group>, i: nat, g: Group)
    requires Descending(groups) && i <= |groups|
    requires i > 0 ==> |groups[i - 1].1| >= |g.1|
    requires i < |groups| ==> |g.1| >= |groups[i].1|
    ensures Descending(groups[..i] + [g] + groups[i..])
  {
    var s := groups[..i] + [g] + groups[i..];
    forall j, k | 0 <= j < k < |s|
      ensures |s[j].1| >= |s[k].1|
    {
      var j', k' := if j <= i then j else j - 1, if k <= i then k else k - 1;
      assert j != i ==> s[j] == groups[j'];
      assert k != i ==> s[k] == groups[k'];
    }
  }

  lemma InsertKeepsElements<T>(s: seq<T>, i: nat, x: T)
    requires i <= |s|
    ensures multiset(s[..i] + [x] + s[i..]) == multiset(s) + multiset{x}
  {
    assert s == s[..i] + s[i..];
  }

  /** No two groups are equal. */
  ghost predicate Distinct<T(!new)>(s: seq<T>)
  {
    forall i, j | 0 <= i < j < |s| :: s[i] != s[j]
  }

  lemma {:induction false} DistinctCountsOne<T(!new)>(s: seq<T>)
    requires Distinct(s)
    ensures forall x | x in s :: multiset(s)[x] == 1
    decreases |s|
  {
    if s != [] {
      var rest := Init(s);
      assert s == rest + [Last(s)];
      DistinctCountsOne(rest);
      assert multiset(s) == multiset(rest) + multiset{Last(s)};
      assert Last(s) !in rest;
    }
  }

  lemma CountsTwice<T>(s: seq<T>, i: nat, j: nat)
    requires i < j < |s| && s[i] == s[j]
    ensures multiset(s)[s[i]] >= 2
  {
    assert s == s[..j] + [s[j]] + s[j + 1..];
    assert s[i] in s[..j];
  }

  lemma DistinctPermutation<T(!new)>(a: seq<T>, b: seq<T>)
    requires multiset(a) == multiset(b) && Distinct(a)
    ensures Distinct(b) && |a| == |b| && forall x :: x in a <==> x in b
  {
    DistinctCountsOne(a);
    forall i, j | 0 <= i < j < |b|
      ensures b[i] != b[j]
    {
      if b[i] == b[j] {
        CountsTwice(b, i, j);
      }
    }
    assert |multiset(a)| == |a| && |multiset(b)| == |b|;
    forall x
      ensures x in a <==> x in b
    {
      assert x in a <==> x in multiset(a);
      assert x in b <==> x in multiset(b);
    }
  }

  // ---------------------------------------------------------------- groups under hashes

  function GroupOf(keys: seq<seq<Token>>, k: seq<Token>): Group {
    (Hash(k), Members(keys, k))
  }

  ghost predicate IsGroup(g: Group, keys: seq<seq<Token>>)
  {
    exists k :: k in keys && g == GroupOf(keys, k)
  }

  /** Every key that occurs has its group, and there is nothing else. */
  ghost predicate Grouped(groups: map<string, seq<nat>>, keys: seq<seq<Token>>)
  {
    && (forall k | k in keys :: Hash(k) in groups && groups[Hash(k)] == Members(keys, k))
    && (forall h | h in groups :: exists k :: k in keys && h == Hash(k))
    && |groups| == |KeySet(keys)|
  }

  lemma NothingGrouped()
    ensures Grouped(map[], [])
  {
  }

  lemma GroupedSize(groups: map<string, seq<nat>>, keys: seq<seq<Token>>)
    requires Grouped(groups, keys)
    ensures |groups| == |KeySet(keys)|
  {
  }

  function Filed(groups: map<string, seq<nat>>, h: string, i: nat): map<string, seq<nat>> {
    groups[h := (if h in groups then groups[h] else []) + [i]]
  }

  lemma GroupedSnoc(groups: map<string, seq<nat>>, keys: seq<seq<Token>>, x: seq<Token>)
    requires Grouped(groups, keys)
    ensures Grouped(Filed(groups, Hash(x), |keys|), keys + [x])
  {
    hide Hash, Members, Filed;
    forall k | k in keys + [x]
      ensures Hash(k) in Filed(groups, Hash(x), |keys|)
              && Filed(groups, Hash(x), |keys|)[Hash(k)] == Members(keys + [x], k)
    {
      FiledMembers(groups, keys, x, k);
    }
    FiledKeys(groups, keys, x);
    FiledSize(groups, keys, x);
  }

  lemma FiledMembers(groups: map<string, seq<nat>>, keys: seq<seq<Token>>, x: seq<Token>, k: seq<Token>)
    requires Grouped(groups, keys) && k in keys + [x]
    ensures var groups' := Filed(groups, Hash(x), |keys|);
            Hash(k) in groups' && groups'[Hash(k)] == Members(keys + [x], k)
  {
    hide Hash, Members;
    KnownHash(groups, keys, x);
    MembersSnoc(keys, x, k);
    HashInjective(x, k);
    if k in keys {
      assert groups[Hash(k)] == Members(keys, k);
    } else {
      NoMembers(keys, k);
    }
  }

  lemma FiledKeys(groups: map<string, seq<nat>>, keys: seq<seq<Token>>, x: seq<Token>)
    requires Grouped(groups, keys)
    ensures var groups' := Filed(groups, Hash(x), |keys|);
            forall h | h in groups' :: exists k :: k in keys + [x] && h == Hash(k)
  {
    hide Hash, Members;
    assert x in keys + [x];
    forall h | h in groups
      ensures exists k :: k in keys + [x] && h == Hash(k)
    {
      var k :| k in keys && h == Hash(k);
      assert k in keys + [x];
    }
  }

  lemma FiledSize(groups: map<string, seq<nat>>, keys: seq<seq<Token>>, x: seq<Token>)
    requires Grouped(groups, keys)
    ensures |Filed(groups, Hash(x), |keys|)| == |KeySet(keys + [x])|
  {
    hide *;
    KnownHash(groups, keys, x);
    GroupedSize(groups, keys);
    KeySetSize(keys, x);
    FiledSizeOf(groups, Hash(x), |keys|);
  }

  lemma KeySetSize<K>(keys: seq<K>, x: K)
    ensures |KeySet(keys + [x])| == |KeySet(keys)| + if x in keys then 0 else 1
  {
    assert KeySet(keys + [x]) == KeySet(keys) + {x};
  }

  lemma FiledSizeOf(groups: map<string, seq<nat>>, h: string, i: nat)
    ensures |Filed(groups, h, i)| == |groups| + if h in groups then 0 else 1
  {
    var groups' := Filed(groups, h, i);
    assert groups'.Keys == groups.Keys + {h};
    assert |groups'| == |groups'.Keys| && |groups| == |groups.Keys|;
  }

  lemma KnownHash(groups: map<string, seq<nat>>, keys: seq<seq<Token>>, x: seq<Token>)
    requires Grouped(groups, keys)
    ensures Hash(x) in groups <==> x in keys
  {
    hide Hash, Members;
    if Hash(x) in groups {
      var k :| k in keys && Hash(x) == Hash(k);
      HashInjective(x, k);
    }
  }

  /** The groups of all keys, each once. */
  ghost predicate AllGroups(groups: seq<Group>, keys: seq<seq<Token>>)
  {
    && Distinct(groups) && |groups| == |KeySet(keys)|
    && (forall k | k in keys :: GroupOf(keys, k) in groups)
    && (forall g | g in groups :: IsGroup(g, keys))
  }

  /** The groups of the map in some order; the source takes the one of its hash table. */
  method Entries(m: map<string, seq<nat>>, ghost keys: seq<seq<Token>>) returns (groups: seq<Group>)
    requires Grouped(m, keys)
    ensures AllGroups(groups, keys)
  {
    hide Grouped;
    groups := [];
    var rest := m.Keys;
    while rest != {}
      invariant rest <= m.Keys && Listed(m, rest, groups)
      decreases rest
    {
      var h :| h in rest;
      ListOne(m, rest, groups, h);
      groups, rest := groups + [(h, m[h])], rest - {h};
    }
    EntriesAreAll(m, keys, groups);
  }

  /** The entries outside rest, each once. */
  ghost predicate Listed(m: map<string, seq<nat>>, rest: set<string>, groups: seq<Group>)
  {
    && |groups| + |rest| == |m|
    && (forall i | 0 <= i < |groups| :: groups[i].0 in m && groups[i].0 !in rest && groups[i].1 == m[groups[i].0])
    && (forall i, j | 0 <= i < j < |groups| :: groups[i].0 != groups[j].0)
    && (forall h | h in m && h !in rest :: (h, m[h]) in groups)
  }

  lemma ListOne(m: map<string, seq<nat>>, rest: set<string>, groups: seq<Group>, h: string)
    requires rest <= m.Keys && Listed(m, rest, groups) && h in rest
    ensures Listed(m, rest - {h}, groups + [(h, m[h])])
  {
    var groups', rest' := groups + [(h, m[h])], rest - {h};
    forall x | x in m && x !in rest'
      ensures (x, m[x]) in groups'
    {
      if x == h {
        assert groups'[|groups|] == (x, m[x]);
      } else {
        assert (x, m[x]) in groups;
      }
    }
  }

  lemma EntriesAreAll(m: map<string, seq<nat>>, keys: seq<seq<Token>>, groups: seq<Group>)
    requires Grouped(m, keys) && Listed(m, {}, groups)
    ensures AllGroups(groups, keys)
  {
    hide Hash, Members;
    forall g | g in groups
      ensures IsGroup(g, keys)
    {
      var k :| k in keys && g.0 == Hash(k);
      assert g == GroupOf(keys, k);
    }
  }

  /** The biggest groups: as many as there are, or as the bound allows, where 0 is no bound. */
  ghost predicate TopGroups(groups: seq<Group>, keys: seq<seq<Token>>, bound: nat)
  {
    var total := |KeySet(keys)|;
    && |groups| == (if bound != 0 && bound < total then bound else total)
    && Distinct(groups) && Descending(groups)
    && (forall g | g in groups :: IsGroup(g, keys))
    && (forall k | k in keys :: GroupOf(keys, k) in groups || forall g | g in groups :: |g.1| >= |GroupOf(keys, k).1|)
    && (|groups| == total ==> forall k | k in keys :: GroupOf(keys, k) in groups)
  }

  method PickTop(all: seq<Group>, bound: nat, ghost keys: seq<seq<Token>>) returns (groups: seq<Group>)
    requires AllGroups(all, keys)
    ensures TopGroups(groups, keys, bound)
  {
    groups := SortBySize(all);
    DistinctPermutation(all, groups);
    ghost var sorted := groups;
    if |groups| > bound && bound != 0 {
      groups := groups[..bound];
    }
    FirstAreTop(sorted, keys, bound);
  }

  lemma FirstAreTop(sorted: seq<Group>, keys: seq<seq<Token>>, bound: nat)
    requires AllGroups(sorted, keys) && Descending(sorted)
    ensures TopGroups(if |sorted| > bound && bound != 0 then sorted[..bound] else sorted, keys, bound)
  {
    hide Hash, Members, GroupOf;
    var groups := if |sorted| > bound && bound != 0 then sorted[..bound] else sorted;
    forall g | g in groups
      ensures IsGroup(g, keys)
    {
      assert g in sorted;
    }
    forall k | k in keys
      ensures GroupOf(keys, k) in groups || forall g | g in groups :: |g.1| >= |GroupOf(keys, k).1|
      ensures |groups| == |sorted| ==> GroupOf(keys, k) in groups
    {
      var i :| 0 <= i < |sorted| && sorted[i] == GroupOf(keys, k);
      if i < |groups| {
        assert groups[i] == GroupOf(keys, k);
      }
    }
  }

  lemma FirstMember(keys: seq<seq<Token>>, k: seq<Token>)
    requires k in keys
    ensures Members(keys, k) != [] && Members(keys, k)[0] < |keys| && keys[Members(keys, k)[0]] == k
  {
    var i :| 0 <= i < |keys| && keys[i] == k;
    assert i in Members(keys, k);
  }

  /** The positions of the top groups: no group occurs twice, and a position that is left out is
      in a group that is not bigger. */
  lemma SchemataAnswer(groups: seq<Group>, keys: seq<seq<Token>>, bound: nat)
    requires TopGroups(groups, keys, bound)
    ensures |groups| == if bound != 0 && bound < |KeySet(keys)| then bound else |KeySet(keys)|
    ensures forall j | 0 <= j < |groups| :: IsGroup(groups[j], keys)
    ensures forall i, j | 0 <= i < j < |groups| :: groups[i].1 != groups[j].1 && |groups[i].1| >= |groups[j].1|
    ensures forall i | 0 <= i < |keys| ::
              || (exists j | 0 <= j < |groups| :: groups[j].1 == Members(keys, keys[i]))
              || (|groups| < |KeySet(keys)| && forall j | 0 <= j < |groups| ::
                  |groups[j].1| >= |Members(keys, keys[i])|)
  {
    hide Hash, Members;
    assert forall j | 0 <= j < |groups| :: groups[j] in groups;
    forall i, j | 0 <= i < j < |groups|
      ensures groups[i].1 != groups[j].1
    {
      assert groups[i] in groups && groups[j] in groups;
      var k :| k in keys && groups[i] == GroupOf(keys, k);
      var k' :| k' in keys && groups[j] == GroupOf(keys, k');
      FirstMember(keys, k);
      FirstMember(keys, k');
    }
    forall i | 0 <= i < |keys|
      ensures (exists j | 0 <= j < |groups| :: groups[j].1 == Members(keys, keys[i]))
              || (|groups| < |KeySet(keys)| && forall j | 0 <= j < |groups| ::
                  |groups[j].1| >= |Members(keys, keys[i])|)
    {
      assert keys[i] in keys;
      if GroupOf(keys, keys[i]) in groups {
        var j :| 0 <= j < |groups| && groups[j] == GroupOf(keys, keys[i]);
        assert groups[j].1 == Members(keys, keys[i]);
      }
    }
  }
}
