/** The formula database and the way hits of the visited leaves become a page of answers. */
module Answers {
  import opened Tokens
  import opened Tries

  /** Unsigned 32-bit arithmetic wraps. */
  type uint32 = n: nat | n < TWO_32

  function U32(n: int): uint32 {
    n % TWO_32
  }

  datatype FormulaInfo = FormulaInfo(crawlId: nat, xmlId: string, xpath: string)

  type FormulaData = map<nat, seq<FormulaInfo>>

  /** The entries stored for a formula, in the order of insertion. */
  function Entries(data: FormulaData, id: nat): seq<FormulaInfo> {
    if id in data then data[id] else []
  }

  /** The part of s from position from up to position to, as far as s reaches. */
  function Slice<T>(s: seq<T>, from: nat, to: nat): seq<T> {
    if |s| <= from || to <= from then [] else s[from..if to < |s| then to else |s|]
  }

  class MemFormulaDb {
    var data: FormulaData

    constructor ()
      ensures data == map[]
    {
      data := map[];
    }

    method InsertFormula(formulaId: nat, info: FormulaInfo)
      modifies this
      ensures data == old(data)[formulaId := old(Entries(data, formulaId)) + [info]]
    {
      data := data[formulaId := Entries(data, formulaId) + [info]];
    }

    /** Hands the entries from limitMin on to the callback, at most limitSize of them, until the
        callback stops the query; found are the entries it got, the one it stopped at included. */
    method QueryFormula(formulaId: nat, limitMin: nat, limitSize: nat, stops: FormulaInfo -> bool)
        returns (rv: int, found: seq<FormulaInfo>)
      ensures var asked := Slice(Entries(data, formulaId), limitMin, limitMin + limitSize);
              && found <= asked && (forall i | 0 <= i < |found| - 1 :: !stops(found[i]))
              && if found != [] && stops(found[|found| - 1]) then rv == -1 else rv == 0 && found == asked
    {
      rv, found := 0, [];
      if formulaId !in data {
        return;
      }
      var infos := data[formulaId];
      if limitMin >= |infos| {
        return;
      }
      var i, it := 0, limitMin;
      while i < limitSize && it != |infos|
        invariant i <= limitSize && it == limitMin + i <= |infos|
        invariant found == infos[limitMin..it] && forall k | 0 <= k < |found| :: !stops(found[k])
      {
        found := found + [infos[it]];
        if stops(infos[it]) {
          return -1, found;
        }
        i, it := i + 1, it + 1;
      }
    }
  }

  datatype Options = Options(includeHits: bool, includeMwsIds: bool)

  /** What is asked for: size answers from offset on, counting no further than maxTotal. */
  datatype Page = Page(offset: uint32, size: uint32, maxTotal: uint32)

  datatype Answset = Answset(answers: seq<FormulaInfo>, ids: set<nat>, total: uint32)

  const NOTHING_FOUND := Answset([], {}, 0)

  /** The check of the arguments before the search starts. */
  function Clamp(p: Page): Page {
    if U32(p.offset as int + p.size as int) > p.maxTotal then
      p.(size := if p.maxTotal <= p.offset then 0 else p.maxTotal - p.offset)
    else p
  }

  /** One visited leaf: what it adds to the answers when acc.total hits were counted before. */
  ghost function Account(o: Options, data: FormulaData, p: Page, leaf: Trie, acc: Answset): Answset
    requires leaf.Leaf?
  {
    var hitsCount: int := if o.includeHits then leaf.hits else 1;
    var found: int := acc.total;
    var inPage := found < U32(p.size as int + p.offset as int) && found + hitsCount > p.offset;
    var added :=
      if inPage && o.includeHits then
        if p.offset < found then Slice(Entries(data, leaf.id), 0, U32(p.size as int + p.offset as int - found))
        else Slice(Entries(data, leaf.id), p.offset - found, p.offset - found + p.size)
      else [];
    var sum := U32(found + hitsCount);
    Answset(acc.answers + added,
            if inPage && o.includeMwsIds then acc.ids + {leaf.id} else acc.ids,
            if sum > p.maxTotal then p.maxTotal else sum)
  }

  /** The leaves one after the other, until maxTotal hits are counted. */
  ghost function Collect(o: Options, data: FormulaData, p: Page, leaves: seq<Trie>, acc: Answset): Answset
    requires forall t | t in leaves :: t.Leaf?
  {
    if leaves == [] || acc.total >= p.maxTotal then acc
    else Collect(o, data, p, leaves[1..], Account(o, data, p, leaves[0], acc))
  }

  // ---------------------------------------------------------------- pages are slices

  function Hits(o: Options, leaf: Trie): nat
    requires leaf.Leaf?
  {
    if o.includeHits then leaf.hits else 1
  }

  /** The number of hits of all leaves. */
  ghost function SumHits(o: Options, leaves: seq<Trie>): nat
    requires forall t | t in leaves :: t.Leaf?
  {
    if leaves == [] then 0 else Hits(o, leaves[0]) + SumHits(o, leaves[1..])
  }

  /** All stored entries of all leaves, in order. */
  ghost function AllEntries(data: FormulaData, leaves: seq<Trie>): seq<FormulaInfo>
    requires forall t | t in leaves :: t.Leaf?
  {
    if leaves == [] then [] else Entries(data, leaves[0].id) + AllEntries(data, leaves[1..])
  }

  /** The leaves count exactly the entries stored for them, and fewer than 2^32 in all. */
  ghost predicate Consistent(o: Options, data: FormulaData, leaves: seq<Trie>)
  {
    && (forall t | t in leaves :: t.Leaf? && |Entries(data, t.id)| == t.hits)
    && SumHits(o, leaves) < TWO_32
  }

  function Min(a: int, b: int): int {
    if a < b then a else b
  }

  function Monus(a: int, b: int): nat {
    if a < b then 0 else a - b
  }

  /** The elements from position from up to position to, as far as s reaches. */
  lemma SliceIs<T>(s: seq<T>, from: nat, to: nat)
    ensures |Slice(s, from, to)| == Monus(Min(to, |s|), from)
    ensures forall i | 0 <= i < |Slice(s, from, to)| :: from + i < |s| && Slice(s, from, to)[i] == s[from + i]
  {
  }

  lemma SliceConcat<T>(a: seq<T>, b: seq<T>, from: nat, to: nat)
    ensures Slice(a + b, from, to) == Slice(a, from, to) + Slice(b, Monus(from, |a|), Monus(to, |a|))
  {
  }

  /** The total never depends on the page: it is the number of hits, cut at maxTotal. */
  lemma {:induction false} TotalCounted(o: Options, data: FormulaData, p: Page, leaves: seq<Trie>, acc: Answset)
    requires forall t | t in leaves :: t.Leaf?
    requires acc.total <= p.maxTotal && acc.total + SumHits(o, leaves) < TWO_32
    ensures Collect(o, data, p, leaves, acc).total == Min(acc.total + SumHits(o, leaves), p.maxTotal)
    decreases |leaves|
  {
    if leaves != [] && acc.total < p.maxTotal {
      AccountTotal(o, data, p, leaves[0], acc);
      hide Account;
      var next := Account(o, data, p, leaves[0], acc);
      if acc.total + Hits(o, leaves[0]) <= p.maxTotal {
        TotalCounted(o, data, p, leaves[1..], next);
      } else {
        assert next.total == p.maxTotal;
        assert Collect(o, data, p, leaves[1..], next) == next;
      }
    }
  }

  lemma AccountTotal(o: Options, data: FormulaData, p: Page, leaf: Trie, acc: Answset)
    requires leaf.Leaf? && acc.total + Hits(o, leaf) < TWO_32
    ensures Account(o, data, p, leaf, acc).total == Min(acc.total + Hits(o, leaf), p.maxTotal)
  {
    hide Slice, Entries;
  }

  /** With found hits counted before, the answers added are the part of the remaining entries
      that lies between offset and offset + size of the whole. */
  lemma {:induction false} AnswersAreSlice(o: Options, data: FormulaData, p: Page, leaves: seq<Trie>, acc: Answset)
    requires o.includeHits && (forall t | t in leaves :: t.Leaf? && |Entries(data, t.id)| == t.hits)
    requires acc.total <= p.maxTotal && acc.total + SumHits(o, leaves) < TWO_32
    requires p.offset + p.size < TWO_32 && (p.offset + p.size <= p.maxTotal || p.size == 0)
    ensures Collect(o, data, p, leaves, acc).answers == acc.answers +
              Slice(AllEntries(data, leaves), Monus(p.offset, acc.total), Monus(p.offset + p.size, acc.total))
    decreases |leaves|
  {
    hide Account, Slice, Entries;
    if leaves == [] || acc.total >= p.maxTotal {
      SliceEmpty(AllEntries(data, leaves), Monus(p.offset, acc.total), Monus(p.offset + p.size, acc.total));
    } else {
      AccountSlice(o, data, p, leaves[0], acc);
      var next := Account(o, data, p, leaves[0], acc);
      if acc.total + leaves[0].hits <= p.maxTotal {
        AnswersAreSlice(o, data, p, leaves[1..], next);
      } else {
        var sum := acc.total + leaves[0].hits;
        SliceEmpty(AllEntries(data, leaves[1..]), Monus(p.offset, sum), Monus(p.offset + p.size, sum));
      }
      AnswersStep(o, data, p, leaves, acc);
    }
  }

  lemma AnswersStep(o: Options, data: FormulaData, p: Page, leaves: seq<Trie>, acc: Answset)
    requires leaves != [] && acc.total < p.maxTotal && (forall t | t in leaves :: t.Leaf?)
    requires o.includeHits && |Entries(data, leaves[0].id)| == leaves[0].hits
    requires p.offset + p.size < TWO_32 && acc.total + leaves[0].hits < TWO_32
    requires var sum, next := acc.total + leaves[0].hits, Account(o, data, p, leaves[0], acc);
             Collect(o, data, p, leaves[1..], next).answers
             == next.answers + Slice(AllEntries(data, leaves[1..]), Monus(p.offset, sum), Monus(p.offset + p.size, sum))
    ensures Collect(o, data, p, leaves, acc).answers == acc.answers +
              Slice(AllEntries(data, leaves), Monus(p.offset, acc.total), Monus(p.offset + p.size, acc.total))
  {
    hide Account, Slice, Entries, Monus;
    AccountSlice(o, data, p, leaves[0], acc);
    var h, from, to := leaves[0].hits, Monus(p.offset, acc.total), Monus(p.offset + p.size, acc.total);
    var here, rest := Entries(data, leaves[0].id), AllEntries(data, leaves[1..]);
    MonusTwice(p.offset, acc.total, h);
    MonusTwice(p.offset + p.size, acc.total, h);
    SliceConcat(here, rest, from, to);
    assert AllEntries(data, leaves) == here + rest;
    Regroup3(acc.answers, Slice(here, from, to), Slice(rest, Monus(from, h), Monus(to, h)));
  }

  lemma Regroup3<T>(a: seq<T>, b: seq<T>, c: seq<T>)
    ensures (a + b) + c == a + (b + c)
  {
  }

  lemma MonusTwice(a: int, b: nat, c: nat)
    ensures Monus(Monus(a, b), c) == Monus(a, b + c)
  {
  }

  lemma SliceEmpty<T>(s: seq<T>, from: nat, to: nat)
    requires to <= from || s == []
    ensures Slice(s, from, to) == []
  {
  }

  lemma AccountSlice(o: Options, data: FormulaData, p: Page, leaf: Trie, acc: Answset)
    requires o.includeHits && leaf.Leaf? && |Entries(data, leaf.id)| == leaf.hits
    requires p.offset + p.size < TWO_32 && acc.total + leaf.hits < TWO_32
    ensures Account(o, data, p, leaf, acc).answers == acc.answers +
              Slice(Entries(data, leaf.id), Monus(p.offset, acc.total), Monus(p.offset + p.size, acc.total))
    ensures Account(o, data, p, leaf, acc).total == Min(acc.total + leaf.hits, p.maxTotal)
  {
  }

  // ---------------------------------------------------------------- the page asked for

  /** The hits of leaf i overlap the page; found hits were counted before leaf 0. */
  ghost predicate OnPage(o: Options, p: Page, found: nat, leaves: seq<Trie>, i: nat)
    requires i < |leaves| && forall t | t in leaves :: t.Leaf?
  {
    var start := found + SumHits(o, leaves[..i]);
    start < p.maxTotal && start < p.offset + p.size && start + Hits(o, leaves[i]) > p.offset
  }

  /** Some leaf with the given id has hits on the page. */
  ghost predicate SomeOnPage(o: Options, p: Page, found: nat, leaves: seq<Trie>, id: nat)
    requires forall t | t in leaves :: t.Leaf?
  {
    exists i | 0 <= i < |leaves| :: leaves[i].id == id && OnPage(o, p, found, leaves, i)
  }

  lemma {:induction false} IdsAreOnPage(o: Options, data: FormulaData, p: Page, leaves: seq<Trie>, acc: Answset,
                                        id: nat)
    requires o.includeMwsIds && forall t | t in leaves :: t.Leaf?
    requires acc.total <= p.maxTotal && acc.total + SumHits(o, leaves) < TWO_32 && p.offset + p.size < TWO_32
    ensures id in Collect(o, data, p, leaves, acc).ids <==> id in acc.ids || SomeOnPage(o, p, acc.total, leaves, id)
    decreases |leaves|
  {
    hide SomeOnPage, Account;
    if leaves == [] || acc.total >= p.maxTotal {
      NoneOnPage(o, p, acc.total, leaves, id);
    } else {
      var next := Account(o, data, p, leaves[0], acc);
      AccountIds(o, data, p, leaves[0], acc, id);
      SomeOnPageShift(o, p, acc.total, leaves, id);
      if acc.total + Hits(o, leaves[0]) < p.maxTotal {
        IdsAreOnPage(o, data, p, leaves[1..], next, id);
      } else {
        assert Collect(o, data, p, leaves[1..], next) == next;
      }
    }
  }

  lemma NoneOnPage(o: Options, p: Page, found: nat, leaves: seq<Trie>, id: nat)
    requires (forall t | t in leaves :: t.Leaf?) && (leaves == [] || found >= p.maxTotal)
    ensures !SomeOnPage(o, p, found, leaves, id)
  {
    hide SumHits;
  }

  lemma AccountIds(o: Options, data: FormulaData, p: Page, leaf: Trie, acc: Answset, id: nat)
    requires o.includeMwsIds && leaf.Leaf? && p.offset + p.size < TWO_32 && acc.total + Hits(o, leaf) < TWO_32
    ensures var (h, next) := (Hits(o, leaf), Account(o, data, p, leaf, acc));
            && (id in next.ids <==>
                || id in acc.ids
                || (leaf.id == id && acc.total < p.offset + p.size && acc.total + h > p.offset))
            && next.total == Min(acc.total + h, p.maxTotal)
  {
    hide Slice, Entries;
  }

  lemma SomeOnPageShift(o: Options, p: Page, found: nat, leaves: seq<Trie>, id: nat)
    requires leaves != [] && (forall t | t in leaves :: t.Leaf?) && found < p.maxTotal
    ensures var h := Hits(o, leaves[0]);
            SomeOnPage(o, p, found, leaves, id) <==>
            || (leaves[0].id == id && found < p.offset + p.size && found + h > p.offset)
            || (found + h < p.maxTotal && SomeOnPage(o, p, found + h, leaves[1..], id))
  {
    hide OnPage;
    var h := Hits(o, leaves[0]);
    OnPageShift(o, p, found, leaves, 0);
    if SomeOnPage(o, p, found, leaves, id) {
      var i :| 0 <= i < |leaves| && leaves[i].id == id && OnPage(o, p, found, leaves, i);
      OnPageShift(o, p, found, leaves, i);
      assert i > 0 ==> leaves[1..][i - 1].id == id;
    }
    if found + h < p.maxTotal && SomeOnPage(o, p, found + h, leaves[1..], id) {
      var i :| 0 <= i < |leaves| - 1 && leaves[1..][i].id == id && OnPage(o, p, found + h, leaves[1..], i);
      OnPageShift(o, p, found, leaves, i + 1);
      assert leaves[i + 1].id == id;
    }
  }

  lemma OnPageShift(o: Options, p: Page, found: nat, leaves: seq<Trie>, i: nat)
    requires i < |leaves| && (forall t | t in leaves :: t.Leaf?) && found < p.maxTotal
    ensures var h := Hits(o, leaves[0]);
            OnPage(o, p, found, leaves, i) <==>
            if i == 0 then found < p.offset + p.size && found + h > p.offset
            else found + h < p.maxTotal && OnPage(o, p, found + h, leaves[1..], i - 1)
  {
    SumHitsSplit(o, leaves, i);
  }

  lemma SumHitsSplit(o: Options, leaves: seq<Trie>, i: nat)
    requires i < |leaves| && forall t | t in leaves :: t.Leaf?
    ensures i > 0 ==> SumHits(o, leaves[..i]) == Hits(o, leaves[0]) + SumHits(o, leaves[1..][..i - 1])
  {
    if i > 0 {
      assert leaves[..i][1..] == leaves[1..][..i - 1];
    }
  }

  // ---------------------------------------------------------------- what is not asked for

  /** Entries are fetched and ids collected only when they are asked for. */
  lemma {:induction false} NothingUnasked(o: Options, data: FormulaData, p: Page, leaves: seq<Trie>, acc: Answset)
    requires forall t | t in leaves :: t.Leaf?
    ensures !o.includeHits ==> Collect(o, data, p, leaves, acc).answers == acc.answers
    ensures !o.includeMwsIds ==> Collect(o, data, p, leaves, acc).ids == acc.ids
    decreases |leaves|
  {
    hide Account;
    if leaves != [] && acc.total < p.maxTotal {
      AccountUnasked(o, data, p, leaves[0], acc);
      NothingUnasked(o, data, p, leaves[1..], Account(o, data, p, leaves[0], acc));
    }
  }

  lemma AccountUnasked(o: Options, data: FormulaData, p: Page, leaf: Trie, acc: Answset)
    requires leaf.Leaf?
    ensures !o.includeHits ==> Account(o, data, p, leaf, acc).answers == acc.answers
    ensures !o.includeMwsIds ==> Account(o, data, p, leaf, acc).ids == acc.ids
  {
  }

  /** Without their entries every leaf counts once. */
  lemma {:induction false} LeavesCountOnce(o: Options, leaves: seq<Trie>)
    requires !o.includeHits && forall t | t in leaves :: t.Leaf?
    ensures SumHits(o, leaves) == |leaves|
    decreases |leaves|
  {
    if leaves != [] {
      LeavesCountOnce(o, leaves[1..]);
    }
  }

  function IdsOf(leaves: seq<Trie>): set<nat>
    requires forall t | t in leaves :: t.Leaf?
  {
    set t | t in leaves :: t.id
  }

  /** Without their entries the ids on the page are those of a slice of the leaves. */
  lemma IdsAreSlice(o: Options, p: Page, leaves: seq<Trie>, id: nat)
    requires !o.includeHits && (forall t | t in leaves :: t.Leaf?) && p.offset + p.size < TWO_32
    ensures SomeOnPage(o, Clamp(p), 0, leaves, id)
       <==> id in IdsOf(Slice(leaves, p.offset, Min(p.offset + p.size, p.maxTotal)))
  {
    hide SumHits;
    var c, part := Clamp(p), Slice(leaves, p.offset, Min(p.offset + p.size, p.maxTotal));
    forall i | 0 <= i < |leaves|
      ensures OnPage(o, c, 0, leaves, i) <==> p.offset <= i < Min(p.offset + p.size, p.maxTotal)
    {
      LeavesCountOnce(o, leaves[..i]);
    }
    hide OnPage;
    if SomeOnPage(o, c, 0, leaves, id) {
      var i :| 0 <= i < |leaves| && leaves[i].id == id && OnPage(o, c, 0, leaves, i);
      assert part[i - p.offset] == leaves[i];
    }
    if id in IdsOf(part) {
      var t :| t in part && t.id == id;
      var j :| 0 <= j < |part| && part[j] == t;
      assert leaves[p.offset + j] == t && OnPage(o, c, 0, leaves, p.offset + j);
    }
  }

  /** Entry k of all entries is one of those of leaf i. */
  ghost predicate EntryOf(data: FormulaData, leaves: seq<Trie>, i: nat, k: nat)
    requires i < |leaves| && forall t | t in leaves :: t.Leaf?
  {
    |AllEntries(data, leaves[..i])| <= k < |AllEntries(data, leaves[..i])| + |Entries(data, leaves[i].id)|
  }

  /** With their entries the ids on a page are those of the leaves with an entry on it. A page without
      room is the exception: the id of a leaf that begins before it and goes on behind its offset is there. */
  lemma IdsOfAnswers(o: Options, data: FormulaData, p: Page, leaves: seq<Trie>, id: nat)
    requires o.includeHits && Consistent(o, data, leaves) && p.offset + p.size < TWO_32
    requires (forall t | t in leaves :: t.hits > 0) && p.size > 0 && p.offset < p.maxTotal
    ensures SomeOnPage(o, Clamp(p), 0, leaves, id)
       <==> exists i, k: nat :: && 0 <= i < |leaves| && leaves[i].id == id && EntryOf(data, leaves, i, k)
                                && p.offset <= k < Min(p.offset + p.size, p.maxTotal)
  {
    hide SumHits, AllEntries, Entries;
    var c, to := Clamp(p), Min(p.offset + p.size, p.maxTotal);
    forall i | 0 <= i < |leaves|
      ensures OnPage(o, c, 0, leaves, i) <==> exists k: nat :: EntryOf(data, leaves, i, k) && p.offset <= k < to
    {
      SumIsEntries(o, data, leaves, i);
      var start := |AllEntries(data, leaves[..i])|;
      if OnPage(o, c, 0, leaves, i) {
        var k := if start < p.offset then p.offset else start;
        assert EntryOf(data, leaves, i, k) && p.offset <= k < to;
      }
    }
    hide OnPage, EntryOf;
    if SomeOnPage(o, c, 0, leaves, id) {
      var i :| 0 <= i < |leaves| && leaves[i].id == id && OnPage(o, c, 0, leaves, i);
      var k: nat :| EntryOf(data, leaves, i, k) && p.offset <= k < to;
    }
    if i, k: nat :| 0 <= i < |leaves| && leaves[i].id == id && EntryOf(data, leaves, i, k) && p.offset <= k < to {
      assert OnPage(o, c, 0, leaves, i);
    }
  }

  lemma IdOnEmptyPage(o: Options, data: FormulaData, p: Page, leaves: seq<Trie>, id: nat)
    requires o.includeHits && Consistent(o, data, leaves) && p.offset + p.size < TWO_32
    requires p.size == 0 || p.maxTotal <= p.offset
    ensures SomeOnPage(o, Clamp(p), 0, leaves, id)
       <==> exists i :: && 0 <= i < |leaves| && leaves[i].id == id && EntryOf(data, leaves, i, p.offset)
                        && |AllEntries(data, leaves[..i])| < Min(p.offset, p.maxTotal)
  {
    hide SumHits, AllEntries, Entries;
    forall i | 0 <= i < |leaves|
      ensures OnPage(o, Clamp(p), 0, leaves, i)
         <==> EntryOf(data, leaves, i, p.offset) && |AllEntries(data, leaves[..i])| < Min(p.offset, p.maxTotal)
    {
      SumIsEntries(o, data, leaves, i);
    }
  }

  lemma SumIsEntries(o: Options, data: FormulaData, leaves: seq<Trie>, i: nat)
    requires o.includeHits && Consistent(o, data, leaves) && i <= |leaves|
    ensures SumHits(o, leaves[..i]) == |AllEntries(data, leaves[..i])|
    ensures i < |leaves| ==> leaves[i].hits == |Entries(data, leaves[i].id)|
  {
    var part := leaves[..i];
    assert forall t | t in part :: t in leaves;
    EntriesCounted(o, data, part);
  }

  lemma {:induction false} EntriesCounted(o: Options, data: FormulaData, leaves: seq<Trie>)
    requires o.includeHits && forall t | t in leaves :: t.Leaf? && |Entries(data, t.id)| == t.hits
    ensures SumHits(o, leaves) == |AllEntries(data, leaves)|
    decreases |leaves|
  {
    hide Entries;
    if leaves != [] {
      EntriesCounted(o, data, leaves[1..]);
    }
  }

  /** Pagination: barring wrap-around of offset + size, the answers are the part of all entries
      between offset and the smaller of offset + size and maxTotal, and the total is the number
      of hits cut at maxTotal. */
  lemma PageIsSlice(o: Options, data: FormulaData, p: Page, leaves: seq<Trie>)
    requires Consistent(o, data, leaves) && p.offset + p.size < TWO_32
    ensures Collect(o, data, Clamp(p), leaves, NOTHING_FOUND).total == Min(SumHits(o, leaves), p.maxTotal)
    ensures o.includeHits ==>
              Collect(o, data, Clamp(p), leaves, NOTHING_FOUND).answers
              == Slice(AllEntries(data, leaves), p.offset, Min(p.offset + p.size, p.maxTotal))
    ensures o.includeMwsIds ==> forall id: nat ::
              id in Collect(o, data, Clamp(p), leaves, NOTHING_FOUND).ids <==> SomeOnPage(o, Clamp(p), 0, leaves, id)
    ensures !o.includeMwsIds ==> Collect(o, data, Clamp(p), leaves, NOTHING_FOUND).ids == {}
    ensures !o.includeHits ==>
              && Collect(o, data, Clamp(p), leaves, NOTHING_FOUND).answers == []
              && Collect(o, data, Clamp(p), leaves, NOTHING_FOUND).total == Min(|leaves|, p.maxTotal)
    ensures !o.includeHits && o.includeMwsIds ==>
              var part := Slice(leaves, p.offset, Min(p.offset + p.size, p.maxTotal));
              (forall t | t in part :: t.Leaf?) && Collect(o, data, Clamp(p), leaves, NOTHING_FOUND).ids == IdsOf(part)
  {
    hide Collect, Slice, SomeOnPage, SumHits, IdsOf;
    var c := Clamp(p);
    TotalCounted(o, data, c, leaves, NOTHING_FOUND);
    if o.includeHits {
      AnswersAreSlice(o, data, c, leaves, NOTHING_FOUND);
      if c.size == 0 {
        SliceEmpty(AllEntries(data, leaves), c.offset, c.offset);
        SliceEmpty(AllEntries(data, leaves), p.offset, Min(p.offset + p.size, p.maxTotal));
      }
    }
    if o.includeMwsIds {
      forall id: nat
        ensures id in Collect(o, data, c, leaves, NOTHING_FOUND).ids <==> SomeOnPage(o, c, 0, leaves, id)
      {
        IdsAreOnPage(o, data, c, leaves, NOTHING_FOUND, id);
      }
    }
    NothingUnasked(o, data, c, leaves, NOTHING_FOUND);
    if !o.includeHits {
      LeavesCountOnce(o, leaves);
      if o.includeMwsIds {
        IdsAreIds(o, p, leaves, Collect(o, data, c, leaves, NOTHING_FOUND).ids);
      }
    }
  }

  lemma IdsAreIds(o: Options, p: Page, leaves: seq<Trie>, ids: set<nat>)
    requires !o.includeHits && (forall t | t in leaves :: t.Leaf?) && p.offset + p.size < TWO_32
    requires forall id: nat :: id in ids <==> SomeOnPage(o, Clamp(p), 0, leaves, id)
    ensures (forall t | t in Slice(leaves, p.offset, Min(p.offset + p.size, p.maxTotal)) :: t.Leaf?)
         && ids == IdsOf(Slice(leaves, p.offset, Min(p.offset + p.size, p.maxTotal)))
  {
    hide SomeOnPage, IdsOf, Clamp;
    forall id: nat
      ensures id in ids <==> id in IdsOf(Slice(leaves, p.offset, Min(p.offset + p.size, p.maxTotal)))
    {
      IdsAreSlice(o, p, leaves, id);
    }
  }

  // ---------------------------------------------------------------- when offset + size wraps

  /** The answers are the requested slice of all entries. */
  ghost predicate RightAnswers(o: Options, data: FormulaData, p: Page, leaves: seq<Trie>)
    requires Consistent(o, data, leaves)
  {
    Collect(o, data, Clamp(p), leaves, NOTHING_FOUND).answers
    == Slice(AllEntries(data, leaves), p.offset, Min(p.offset + p.size, p.maxTotal))
  }

  /** What a caller can check before the search: the sum does not wrap, or wraps harmlessly. */
  predicate SafePage(p: Page)
  {
    || p.offset as int + p.size as int < TWO_32
    || p.maxTotal < U32(p.offset as int + p.size as int)
    || (U32(p.offset as int + p.size as int) == 0 && p.maxTotal <= p.offset)
    || p.offset == TWO_32 - 1
  }

  /** The same in numbers: the sum stays below 2^32, or what is left of it is above maxTotal, or nothing is left
      and the offset is not below maxTotal, or the offset is the greatest number there is. */
  lemma SafePageIs(p: Page)
    ensures var sum := p.offset as int + p.size as int;
            SafePage(p) <==>
            || sum < 0x1_0000_0000
            || p.maxTotal < sum - 0x1_0000_0000
            || (sum == 0x1_0000_0000 && p.maxTotal <= p.offset)
            || p.offset == 0xFFFF_FFFF
  {
  }

  lemma {:induction false} NothingAdded(o: Options, data: FormulaData, p: Page, leaves: seq<Trie>, acc: Answset)
    requires (forall t | t in leaves :: t.Leaf?) && acc.total + SumHits(o, leaves) < TWO_32
    requires U32(p.size as int + p.offset as int) == 0 || p.offset == TWO_32 - 1
    ensures Collect(o, data, p, leaves, acc).answers == acc.answers
    decreases |leaves|
  {
    hide Account, Slice, Entries;
    if leaves != [] && acc.total < p.maxTotal {
      var next := Account(o, data, p, leaves[0], acc);
      AccountNothing(o, data, p, leaves[0], acc);
      AccountTotal(o, data, p, leaves[0], acc);
      if acc.total + Hits(o, leaves[0]) < p.maxTotal {
        NothingAdded(o, data, p, leaves[1..], next);
      } else {
        assert Collect(o, data, p, leaves[1..], next) == next;
      }
    }
  }

  lemma AccountNothing(o: Options, data: FormulaData, p: Page, leaf: Trie, acc: Answset)
    requires leaf.Leaf? && acc.total + Hits(o, leaf) < TWO_32
    requires U32(p.size as int + p.offset as int) == 0 || p.offset == TWO_32 - 1
    ensures Account(o, data, p, leaf, acc).answers == acc.answers
  {
    hide Slice, Entries;
    assert acc.answers + [] == acc.answers;
  }

  lemma SafePageRight(o: Options, data: FormulaData, p: Page, leaves: seq<Trie>)
    requires Consistent(o, data, leaves) && o.includeHits && SafePage(p)
    ensures RightAnswers(o, data, p, leaves)
  {
    hide Collect, Slice, SumHits;
    var all, c := AllEntries(data, leaves), Clamp(p);
    if p.offset as int + p.size as int < TWO_32 {
      PageIsSlice(o, data, p, leaves);
    } else {
      if p.maxTotal < U32(p.offset as int + p.size as int) {
        AnswersAreSlice(o, data, c, leaves, NOTHING_FOUND);
        SliceEmpty(all, c.offset, c.offset);
      } else {
        NothingAdded(o, data, c, leaves, NOTHING_FOUND);
      }
      SliceEmpty(all, p.offset, Min(p.offset + p.size, p.maxTotal));
    }
  }

  /** One or two leaves, numbered from 1, each with entries. */
  ghost predicate FewLeaves(data: FormulaData, leaves: seq<Trie>)
  {
    && 1 <= |leaves| <= 2
    && (forall i | 0 <= i < |leaves| :: leaves[i].Leaf? && leaves[i].id == i + 1 && leaves[i].hits > 0)
    && forall id | id in data :: 1 <= id <= |leaves|
  }

  /** Every other page has leaves for which the answers are wrong. */
  lemma UnsafePageWrong(o: Options, p: Page) returns (data: FormulaData, leaves: seq<Trie>)
    requires o.includeHits && !SafePage(p)
    ensures FewLeaves(data, leaves) && Consistent(o, data, leaves) && !RightAnswers(o, data, p, leaves)
  {
    if p.maxTotal <= p.offset {
      data, leaves := AnswerTooMany(o, p);
    } else if U32(p.offset as int + p.size as int) == 0 {
      data, leaves := AllMissing(o, p);
    } else {
      data, leaves := AnswerMissing(o, p);
    }
  }

  lemma AnswerTooMany(o: Options, p: Page) returns (data: FormulaData, leaves: seq<Trie>)
    requires o.includeHits && !SafePage(p) && p.maxTotal <= p.offset
    ensures FewLeaves(data, leaves) && Consistent(o, data, leaves) && !RightAnswers(o, data, p, leaves)
  {
    var info := FormulaInfo(0, "", "");
    assert Clamp(p) == p;
    data, leaves := map[1 := seq(p.offset + 1, _ => info)], [Leaf(1, p.offset + 1)];
    assert leaves[1..] == [] && SumHits(o, leaves) == p.offset + 1;
    SliceEmpty(AllEntries(data, leaves), p.offset, Min(p.offset + p.size, p.maxTotal));
    var next := Account(o, data, p, leaves[0], NOTHING_FOUND);
    assert Collect(o, data, p, leaves, NOTHING_FOUND) == Collect(o, data, p, [], next);
    assert next.answers == [] + Slice(data[1], p.offset, p.offset + p.size);
  }

  /** When the sum wraps to 0, nothing is ever on the page. */
  lemma AllMissing(o: Options, p: Page) returns (data: FormulaData, leaves: seq<Trie>)
    requires o.includeHits && !SafePage(p) && p.offset < p.maxTotal && U32(p.offset as int + p.size as int) == 0
    ensures FewLeaves(data, leaves) && Consistent(o, data, leaves) && !RightAnswers(o, data, p, leaves)
  {
    var info := FormulaInfo(0, "", "");
    data, leaves := map[1 := seq(p.offset + 1, _ => info)], [Leaf(1, p.offset + 1)];
    assert leaves[1..] == [] && SumHits(o, leaves) == p.offset + 1;
    assert Clamp(p) == p;
    NothingAdded(o, data, p, leaves, NOTHING_FOUND);
    assert AllEntries(data, leaves) == data[1] + [];
    assert |Slice(AllEntries(data, leaves), p.offset, Min(p.offset + p.size, p.maxTotal))| > 0;
  }

  lemma AnswerMissing(o: Options, p: Page) returns (data: FormulaData, leaves: seq<Trie>)
    requires o.includeHits && !SafePage(p) && p.offset < p.maxTotal && U32(p.offset as int + p.size as int) != 0
    ensures FewLeaves(data, leaves) && Consistent(o, data, leaves) && !RightAnswers(o, data, p, leaves)
  {
    var w, info := U32(p.offset as int + p.size as int), FormulaInfo(0, "", "");
    assert w < p.offset && Clamp(p) == p;
    data := map[1 := seq(w, _ => info), 2 := seq(p.offset + 1 - w, _ => info)];
    leaves := [Leaf(1, w), Leaf(2, p.offset + 1 - w)];
    assert leaves[1..] == [leaves[1]] && leaves[1..][1..] == [];
    var tail := [leaves[1]];
    assert SumHits(o, tail) == p.offset + 1 - w && SumHits(o, leaves) == w + SumHits(o, tail);
    assert AllEntries(data, tail) == data[2] + [] && AllEntries(data, leaves) == data[1] + AllEntries(data, tail);
    var first := Account(o, data, p, leaves[0], NOTHING_FOUND);
    var second := Account(o, data, p, leaves[1], first);
    NothingOfBoth(o, data, p, leaves[0], leaves[1]);
    hide Account;
    assert Collect(o, data, p, leaves, NOTHING_FOUND) == Collect(o, data, p, tail, first);
    assert Collect(o, data, p, tail, first) == Collect(o, data, p, [], second);
  }

  /** Both leaves lie before or around the offset, but the sum has wrapped to below it. */
  lemma NothingOfBoth(o: Options, data: FormulaData, p: Page, a: Trie, b: Trie)
    requires o.includeHits && a.Leaf? && b.Leaf? && a.hits == U32(p.offset as int + p.size as int) < p.offset
    requires a.hits + b.hits == p.offset + 1 && p.offset < p.maxTotal
    ensures var first := Account(o, data, p, a, NOTHING_FOUND);
            first.answers == [] && first.total == a.hits && Account(o, data, p, b, first).answers == []
  {
    hide Slice, Entries;
  }

  /** Pages are right for all leaves exactly when the requested page is safe. */
  lemma PagesExactlyRight(o: Options, p: Page)
    requires o.includeHits
    ensures SafePage(p) <==> forall data: FormulaData, leaves: seq<Trie> | Consistent(o, data, leaves) ::
              RightAnswers(o, data, p, leaves)
  {
    if SafePage(p) {
      forall data: FormulaData, leaves: seq<Trie> | Consistent(o, data, leaves)
        ensures RightAnswers(o, data, p, leaves)
      {
        SafePageRight(o, data, p, leaves);
      }
    } else {
      var data, leaves := UnsafePageWrong(o, p);
    }
  }
}
