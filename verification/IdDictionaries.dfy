/** The dictionary of meanings: numbers keys by first occurrence, and survives being saved as
    long as no key is empty or contains the terminator. */
module IdDictionaries {
  import opened Numberings

  const KEY_NOT_FOUND := 0
  const NUL := '\0'

  class IdDictionary {
    var ids: map<string, nat>
    var nextId: nat
    ghost var keys: seq<string>

    ghost predicate Valid()
      reads this
    {
      && NoRepeats(keys) && nextId == |keys| + 1 && |ids| == |keys|
      && (forall k :: k in ids <==> k in keys)
      && (forall k | k in ids :: ids[k] == NumberOf(keys, k))
    }

    constructor ()
      ensures Valid() && keys == []
    {
      ids, nextId, keys := map[], 1, [];
    }

    method Get(key: string) returns (result: nat)
      requires Valid()
      ensures result == NumberOf(keys, key)
      ensures result == KEY_NOT_FOUND <==> key !in keys
    {
      result := if key in ids then ids[key] else KEY_NOT_FOUND;
    }

    method Put(key: string) returns (result: nat)
      requires Valid()
      modifies this
      ensures Valid() && keys == Add(old(keys), key) && old(keys) <= keys
      ensures result == NumberOf(keys, key) != KEY_NOT_FOUND
    {
      hide NumberOf;
      result := Get(key);
      AddKeeps(keys, key);
      if result == KEY_NOT_FOUND {
        ghost var before := keys;
        result := nextId;
        ids := ids[key := nextId];
        nextId := nextId + 1;
        keys := keys + [key];
        forall k | k in before
          ensures NumberOf(keys, k) == NumberOf(before, k)
        {
          NumberStays(before, keys, k);
        }
      }
    }

    /** The keys at their numbers. */
    method GetReverseLookupTable() returns (table: seq<string>)
      requires Valid()
      ensures table == keys
    {
      hide NumberOf, NoRepeats;
      table := seq(|ids|, _ => "");
      var rest := ids.Keys;
      while rest != {}
        invariant rest <= ids.Keys && |table| == |keys|
        invariant forall i | 0 <= i < |keys| && keys[i] !in rest :: table[i] == keys[i]
        decreases rest
      {
        var key :| key in rest;
        AtItsNumber(keys, key);
        table := table[ids[key] - 1 := key];
        rest := rest - {key};
      }
    }

    /** The text of the saved dictionary. */
    method Save() returns (out: string)
      requires Valid()
      ensures out == Saved(keys)
    {
      var table := GetReverseLookupTable();
      out := "";
      var i := 0;
      while i < |table|
        invariant 0 <= i <= |table| && out == Saved(table[..i])
      {
        assert table[..i + 1][..i] == table[..i];
        out := out + (table[i] + [NUL]);
        i := i + 1;
      }
      assert table[..i] == table;
    }

    constructor Load(text: string)
      ensures Valid() && keys == AddAll([], Lines(text))
    {
      hide Lines, AddAll, NulAt, NumberOf, Add, OneLine;
      ids, nextId, keys := map[], 1, [];
      new;
      NothingAdded();
      var rest, eof := text, false;
      ghost var done: seq<string> := [];
      while !eof
        invariant Valid() && keys == AddAll([], done)
        invariant Lines(text) == done + if eof then [] else Lines(rest)
        decreases !eof, |rest|
      {
        LinesStep(rest, done);
        var i := NulAt(rest, 0);
        var key := rest[..i];
        eof := i == |rest|;
        rest := if eof then "" else rest[i + 1..];
        PutLine(key, done);
        done := done + OneLine(key);
      }
      assert done + [] == done;
    }

    method PutLine(key: string, ghost done: seq<string>)
      requires Valid() && keys == AddAll([], done)
      modifies this
      ensures Valid() && keys == AddAll([], done + OneLine(key))
    {
      if key != "" {
        var _ := Put(key);
        AddAllSnoc([], done, key);
      } else {
        assert done + [] == done;
      }
    }
  }

  lemma AtItsNumber(keys: seq<string>, key: string)
    requires NoRepeats(keys) && key in keys
    ensures var n := NumberOf(keys, key);
            0 < n <= |keys| && keys[n - 1] == key && forall i | 0 <= i < |keys| && keys[i] == key :: i == n - 1
  {
  }

  // ---------------------------------------------------------------- saving and loading

  function NulAt(s: string, i: nat): (k: nat)
    requires i <= |s|
    ensures i <= k <= |s| && (k < |s| ==> s[k] == NUL) && forall j | i <= j < k :: s[j] != NUL
    decreases |s| - i
  {
    if i == |s| || s[i] == NUL then i else NulAt(s, i + 1)
  }

  function OneLine(key: string): seq<string> {
    if key == "" then [] else [key]
  }

  /** The non-empty stretches between terminators. */
  function Lines(s: string): seq<string>
    decreases |s|
  {
    var i := NulAt(s, 0);
    OneLine(s[..i]) + if i == |s| then [] else Lines(s[i + 1..])
  }

  lemma LinesStep(s: string, done: seq<string>)
    ensures var i := NulAt(s, 0);
            done + Lines(s) == (done + OneLine(s[..i])) + if i == |s| then [] else Lines(s[i + 1..])
  {
    hide OneLine, NulAt;
  }

  lemma NothingAdded()
    ensures AddAll<string>([], []) == []
  {
  }

  function Saved(keys: seq<string>): string
    decreases |keys|
  {
    if keys == [] then "" else Saved(keys[..|keys| - 1]) + (keys[|keys| - 1] + [NUL])
  }

  /** A zero byte ends every key. */
  lemma SavedTwo(a: string, b: string)
    ensures Saved([a, b]) == a + ['\0'] + b + ['\0']
  {
    assert [a, b][..1] == [a] && [a][..0] == [];
    assert Saved([a]) == "" + (a + ['\0']);
  }

  ghost predicate Storable(key: string)
  {
    key != "" && NUL !in key
  }

  lemma {:induction false} LinesAreStorable(s: string)
    ensures forall k | k in Lines(s) :: Storable(k)
    decreases |s|
  {
    var i := NulAt(s, 0);
    if i < |s| {
      LinesAreStorable(s[i + 1..]);
    }
  }

  lemma {:induction false} LinesOfSaved(keys: seq<string>, tail: string)
    requires forall k | k in keys :: Storable(k)
    ensures Lines(Saved(keys) + tail) == keys + Lines(tail)
    decreases |keys|
  {
    hide Lines, Storable;
    if keys == [] {
      assert "" + tail == tail;
    } else {
      var before, key := keys[..|keys| - 1], keys[|keys| - 1];
      SavedSnoc(before, key, tail);
      assert keys == before + [key];
      LinesOfSaved(before, key + [NUL] + tail);
      LinesOfOne(key, tail);
      assert (before + [key]) + Lines(tail) == before + ([key] + Lines(tail));
    }
  }

  lemma SavedSnoc(keys: seq<string>, key: string, tail: string)
    ensures Saved(keys + [key]) + tail == Saved(keys) + (key + [NUL] + tail)
  {
    assert (keys + [key])[..|keys|] == keys;
    assert Saved(keys + [key]) == Saved(keys) + (key + [NUL]);
  }

  lemma LinesOfOne(key: string, tail: string)
    requires Storable(key)
    ensures Lines(key + [NUL] + tail) == [key] + Lines(tail)
  {
    var s := key + [NUL] + tail;
    assert s[|key|] == NUL && forall j | 0 <= j < |key| :: s[j] == key[j];
    assert NulAt(s, 0) == |key|;
    assert s[..|key|] == key && s[|key| + 1..] == tail;
  }

  /** Keys end at zero bytes or at the end of the text, and empty ones are left out. */
  lemma LinesAre(key: string, tail: string)
    requires '\0' !in key
    ensures Lines(key) == if key == "" then [] else [key]
    ensures Lines(key + ['\0'] + tail) == (if key == "" then [] else [key]) + Lines(tail)
  {
    var s := key + [NUL] + tail;
    assert s[|key|] == NUL && forall j | 0 <= j < |key| :: s[j] == key[j];
    assert NulAt(s, 0) == |key| && NulAt(key, 0) == |key|;
    assert s[..|key|] == key && s[|key| + 1..] == tail && key[..|key|] == key;
  }

  /** Loading a saved dictionary gives the same keys with the same numbers exactly when every key
      is non-empty and free of the terminator. */
  lemma SaveLoadExact(keys: seq<string>)
    requires NoRepeats(keys)
    ensures AddAll([], Lines(Saved(keys))) == keys <==> forall k | k in keys :: Storable(k)
  {
    hide Lines, Saved, Storable, AddAll;
    LinesAreStorable(Saved(keys));
    AddAllKeeps([], Lines(Saved(keys)));
    if forall k | k in keys :: Storable(k) {
      LinesOfSaved(keys, "");
      assert Saved(keys) + "" == Saved(keys);
      NoLines();
      assert keys + [] == keys;
      AddDistinct(keys);
    }
  }

  lemma NoLines()
    ensures Lines("") == []
  {
  }

  lemma {:induction false} AddDistinct(keys: seq<string>)
    requires NoRepeats(keys)
    ensures AddAll([], keys) == keys
    decreases |keys|
  {
    hide NoRepeats, AddAll;
    if keys == [] {
      NothingAdded();
    } else {
      var before, key := keys[..|keys| - 1], keys[|keys| - 1];
      NewKey(keys);
      AddDistinct(before);
      assert keys == before + [key];
      AddAllSnoc([], before, key);
    }
  }

  lemma NewKey(keys: seq<string>)
    requires NoRepeats(keys) && keys != []
    ensures keys[|keys| - 1] !in keys[..|keys| - 1] && NoRepeats(keys[..|keys| - 1])
  {
    var before := keys[..|keys| - 1];
    assert forall i | 0 <= i < |before| :: before[i] == keys[i];
  }
}
