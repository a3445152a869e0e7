/** Numbering by first occurrence: a list without repetitions, where the number of an element is
    its position counted from 1, and 0 stands for an element that is not there. */
module Numberings {

  ghost predicate NoRepeats<K(!new)>(list: seq<K>)
  {
    forall i, j | 0 <= i < j < |list| :: list[i] != list[j]
  }

  function Add<K(==)>(list: seq<K>, x: K): seq<K> {
    if x in list then list else list + [x]
  }

  function AddAll<K(==)>(list: seq<K>, xs: seq<K>): seq<K>
    decreases |xs|
  {
    if xs == [] then list else Add(AddAll(list, xs[..|xs| - 1]), xs[|xs| - 1])
  }

  function NumberOf<K(==)>(list: seq<K>, x: K): (n: nat)
    ensures n <= |list| && (n == 0 <==> x !in list)
    ensures n > 0 ==> list[n - 1] == x
    decreases |list|
  {
    if list == [] then 0
    else if list[|list| - 1] == x then |list|
    else
      var n := NumberOf(list[..|list| - 1], x);
      assert n == 0 ==> x !in list by {
        assert list == list[..|list| - 1] + [list[|list| - 1]];
      }
      n
  }

  lemma NumberUnique<K(!new)>(list: seq<K>, i: nat)
    requires NoRepeats(list) && i < |list|
    ensures NumberOf(list, list[i]) == i + 1
  {
  }

  lemma AddKeeps<K(!new)>(list: seq<K>, x: K)
    requires NoRepeats(list)
    ensures NoRepeats(Add(list, x)) && list <= Add(list, x) && x in Add(list, x)
    ensures NumberOf(Add(list, x), x) == if x in list then NumberOf(list, x) else |list| + 1
  {
    hide NumberOf;
    if x !in list {
      NewAtEnd(list, x);
      NumberUnique(list + [x], |list|);
    }
  }

  lemma NewAtEnd<K(!new)>(list: seq<K>, x: K)
    requires NoRepeats(list) && x !in list
    ensures NoRepeats(list + [x])
  {
    var longer := list + [x];
    forall i, j | 0 <= i < j < |longer|
      ensures longer[i] != longer[j]
    {
      assert longer[i] == list[i];
      if j < |list| {
        assert longer[j] == list[j];
      }
    }
  }

  lemma AddAllSnoc<K>(list: seq<K>, xs: seq<K>, x: K)
    ensures AddAll(list, xs + [x]) == Add(AddAll(list, xs), x)
  {
    assert (xs + [x])[..|xs|] == xs;
  }

  lemma {:induction false} AddAllKeeps<K(!new)>(list: seq<K>, xs: seq<K>)
    requires NoRepeats(list)
    ensures NoRepeats(AddAll(list, xs)) && list <= AddAll(list, xs)
    ensures forall x :: x in AddAll(list, xs) <==> x in list || x in xs
    decreases |xs|
  {
    if xs != [] {
      var before := xs[..|xs| - 1];
      AddAllKeeps(list, before);
      AddKeeps(AddAll(list, before), xs[|xs| - 1]);
      assert xs == before + [xs[|xs| - 1]];
    }
  }

  lemma {:induction false} AddAllParts<K>(list: seq<K>, xs: seq<K>, ys: seq<K>)
    ensures AddAll(list, xs + ys) == AddAll(AddAll(list, xs), ys)
    decreases |ys|
  {
    if ys == [] {
      assert xs + ys == xs;
    } else {
      var before := ys[..|ys| - 1];
      assert (xs + ys)[..|xs + ys| - 1] == xs + before;
      AddAllParts(list, xs, before);
    }
  }

  /** Numbers stay when the list grows. */
  lemma NumberStays<K(!new)>(list: seq<K>, longer: seq<K>, x: K)
    requires list <= longer && NoRepeats(longer) && x in list
    ensures NumberOf(longer, x) == NumberOf(list, x)
  {
    NumberUnique(longer, NumberOf(list, x) - 1);
  }

  /** Different elements have different numbers. */
  lemma NumberInjective<K>(list: seq<K>, x: K, y: K)
    requires x in list && NumberOf(list, x) == NumberOf(list, y)
    ensures x == y
  {
  }

  /** The same elements at the same places. */
  ghost predicate SamePattern<K(!new)>(xs: seq<K>, ys: seq<K>)
  {
    |xs| == |ys| && forall i, j | 0 <= i < |xs| && 0 <= j < |xs| :: xs[i] == xs[j] <==> ys[i] == ys[j]
  }

  ghost predicate SameNumbers<K(!new)>(xs: seq<K>, ys: seq<K>)
  {
    |xs| == |ys| && forall i | 0 <= i < |xs| :: NumberOf(AddAll([], xs), xs[i]) == NumberOf(AddAll([], ys), ys[i])
  }

  /** Numbering by first occurrence records exactly which places hold equal elements. */
  lemma NumbersArePattern<K(!new)>(xs: seq<K>, ys: seq<K>)
    ensures SameNumbers(xs, ys) <==> SamePattern(xs, ys)
  {
    AddAllKeeps([], xs);
    AddAllKeeps([], ys);
    if SamePattern(xs, ys) {
      PatternGivesNumbers(xs, ys);
    }
    if SameNumbers(xs, ys) {
      forall i, j | 0 <= i < |xs| && 0 <= j < |xs|
        ensures xs[i] == xs[j] <==> ys[i] == ys[j]
      {
        assert xs[i] in AddAll([], xs) && ys[i] in AddAll([], ys);
        if xs[i] == xs[j] {
          NumberInjective(AddAll([], ys), ys[i], ys[j]);
        } else if ys[i] == ys[j] {
          NumberInjective(AddAll([], xs), xs[i], xs[j]);
        }
      }
    }
  }

  lemma {:induction false} PatternGivesNumbers<K(!new)>(xs: seq<K>, ys: seq<K>)
    requires SamePattern(xs, ys)
    ensures SameNumbers(xs, ys) && |AddAll([], xs)| == |AddAll([], ys)|
    decreases |xs|
  {
    if xs != [] {
      var n := |xs| - 1;
      var xs0, ys0 := xs[..n], ys[..n];
      PatternGivesNumbers(xs0, ys0);
      AddAllKeeps([], xs0);
      AddAllKeeps([], ys0);
      LastKnown(xs, ys);
      AddKeeps(AddAll([], xs0), xs[n]);
      AddKeeps(AddAll([], ys0), ys[n]);
      forall i | 0 <= i < |xs|
        ensures NumberOf(AddAll([], xs), xs[i]) == NumberOf(AddAll([], ys), ys[i])
      {
        LastOrEarlier(xs, ys, i);
      }
    }
  }

  /** The last element occurred before in both or in neither. */
  lemma LastKnown<K(!new)>(xs: seq<K>, ys: seq<K>)
    requires SamePattern(xs, ys) && xs != []
    ensures xs[|xs| - 1] in xs[..|xs| - 1] <==> ys[|ys| - 1] in ys[..|ys| - 1]
  {
    var n := |xs| - 1;
    if xs[n] in xs[..n] {
      var i :| 0 <= i < n && xs[..n][i] == xs[n];
      assert ys[..n][i] == ys[n];
    }
    if ys[n] in ys[..n] {
      var i :| 0 <= i < n && ys[..n][i] == ys[n];
      assert xs[..n][i] == xs[n];
    }
  }

  lemma LastOrEarlier<K(!new)>(xs: seq<K>, ys: seq<K>, i: nat)
    requires SamePattern(xs, ys) && i < |xs|
    requires var n := |xs| - 1; SameNumbers(xs[..n], ys[..n]) && |AddAll([], xs[..n])| == |AddAll([], ys[..n])|
    ensures NumberOf(AddAll([], xs), xs[i]) == NumberOf(AddAll([], ys), ys[i])
  {
    hide *;
    var n := |xs| - 1;
    PatternAt(xs, ys, n, n);
    var xs0, ys0 := xs[..n], ys[..n];
    if i < n {
      EarlierNumber(xs, i);
      EarlierNumber(ys, i);
      SameNumberAt(xs0, ys0, i);
    } else {
      LastNumber(xs);
      LastNumber(ys);
      LastKnown(xs, ys);
      if xs[n] in xs0 {
        var j :| 0 <= j < n && xs0[j] == xs[n];
        PatternAt(xs, ys, j, n);
        SameNumberAt(xs0, ys0, j);
      }
    }
  }

  lemma SameNumberAt<K(!new)>(xs: seq<K>, ys: seq<K>, i: nat)
    requires SameNumbers(xs, ys) && i < |xs|
    ensures |xs| == |ys| && NumberOf(AddAll([], xs), xs[i]) == NumberOf(AddAll([], ys), ys[i])
  {
  }

  lemma PatternAt<K(!new)>(xs: seq<K>, ys: seq<K>, i: nat, j: nat)
    requires SamePattern(xs, ys) && i < |xs| && j < |xs|
    ensures |xs| == |ys| && (xs[i] == xs[j] <==> ys[i] == ys[j])
  {
  }

  lemma EarlierNumber<K(!new)>(xs: seq<K>, i: nat)
    requires i < |xs| - 1
    ensures NumberOf(AddAll([], xs), xs[i]) == NumberOf(AddAll([], xs[..|xs| - 1]), xs[..|xs| - 1][i])
  {
    hide NumberOf, Add;
    var xs0 := xs[..|xs| - 1];
    AddAllKeeps([], xs0);
    AddKeeps(AddAll([], xs0), xs[|xs| - 1]);
    assert xs0[i] == xs[i];
    NumberStays(AddAll([], xs0), AddAll([], xs), xs[i]);
  }

  lemma LastNumber<K(!new)>(xs: seq<K>)
    requires xs != []
    ensures var (xs0, x) := (xs[..|xs| - 1], xs[|xs| - 1]);
            NumberOf(AddAll([], xs), x) == if x in xs0 then NumberOf(AddAll([], xs0), x) else |AddAll([], xs0)| + 1
  {
    hide NumberOf, Add;
    var xs0 := xs[..|xs| - 1];
    AddAllKeeps([], xs0);
    AddKeeps(AddAll([], xs0), xs[|xs| - 1]);
  }

  lemma {:induction false} AddKnown<K>(list: seq<K>, xs: seq<K>)
    requires forall x | x in xs :: x in list
    ensures AddAll(list, xs) == list
    decreases |xs|
  {
    if xs != [] {
      AddKnown(list, xs[..|xs| - 1]);
    }
  }
}
