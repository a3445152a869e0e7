/** The exported index and the in-memory index are the same index: same tree, same answers. */
module FrozenIndex {
  import opened Tokens
  import opened Tries
  import opened Walks
  import opened Accessors
  import opened IndexIterators
  import opened Sectors
  import opened SectorLayout
  import opened SectorReadBack
  import opened Exports
  import opened Checksums
  import opened Queries
  import opened SearchSpec
  import opened Answers
  import opened SearchContexts
  import opened Wrappers

  // ---------------------------------------------------------------- the header

  /** What a sector is checked for before it is used. */
  predicate Intact(m: seq<Byte>)
    requires |m| >= HEADER_SIZE && HEADER_SIZE + Load(m, 8, 8) <= |m|
  {
    && Load(m, 0, 4) == MEMSECTOR_MAGIC && Load(m, 4, 4) == MEMSECTOR_VERSION
    && Load(m, 16, 4) == Field(Crc32(0, m[HEADER_SIZE..HEADER_SIZE + Load(m, 8, 8)]))
  }

  /** Opens a sector that is at least as long as its header says. */
  method MemsectorLoad(m: seq<Byte>) returns (r: Option<Index>)
    requires |m| >= HEADER_SIZE && HEADER_SIZE + Load(m, 8, 8) <= |m|
    ensures r == if Intact(m) then Some(LoadIndex(m)) else None
  {
    hide Load, Crc32, Field;
    if Load(m, 0, 4) != MEMSECTOR_MAGIC {
      return None;
    }
    if Load(m, 4, 4) != MEMSECTOR_VERSION {
      return None;
    }
    var checksum := ComputeCrc32(0, m[HEADER_SIZE..HEADER_SIZE + Load(m, 8, 8)]);
    if Load(m, 16, 4) != Field(checksum) {
      return None;
    }
    r := Some(LoadIndex(m));
  }

  /** The fields of a header are read as they were written. */
  lemma HeaderRead(indexSize: nat, checksum: nat, rootOff: nat, body: seq<Byte>)
    requires indexSize < TWO_64 && checksum < TWO_32 && rootOff < TWO_64
    ensures var m := Header(indexSize, checksum, rootOff) + body;
            && Load(m, 0, 4) == MEMSECTOR_MAGIC && Load(m, 4, 4) == MEMSECTOR_VERSION && Load(m, 8, 8) == indexSize
            && Load(m, 16, 4) == checksum && Load(m, 20, 8) == rootOff
  {
    hide Bytes, Load, Number;
    var a, b, c, d := Bytes(MEMSECTOR_MAGIC, 4), Bytes(MEMSECTOR_VERSION, 4), Bytes(indexSize, 8), Bytes(checksum, 4);
    var m := Header(indexSize, checksum, rootOff) + body;
    var e := Bytes(rootOff, 8) + body;
    assert m == a + (b + (c + (d + e)));
    assert Holds(m, 0, a + (b + (c + (d + e))));
    HoldsParts(m, 0, a, b + (c + (d + e)));
    HoldsParts(m, 4, b, c + (d + e));
    HoldsParts(m, 8, c, d + e);
    HoldsParts(m, 16, d, e);
    HoldsParts(m, 20, Bytes(rootOff, 8), body);
    Pow256Values();
    LoadHeld(m, 0, MEMSECTOR_MAGIC, 4);
    LoadHeld(m, 4, MEMSECTOR_VERSION, 4);
    LoadHeld(m, 8, indexSize, 8);
    LoadHeld(m, 16, checksum, 4);
    LoadHeld(m, 20, rootOff, 8);
  }

  /** An export passes the check that opening it makes. */
  lemma ExportIsIntact(t: Trie, longStart: nat)
    requires Dense(t) && |Exported(t, longStart)| < TWO_34
    ensures var m := Exported(t, longStart);
            |m| >= HEADER_SIZE && HEADER_SIZE + Load(m, 8, 8) <= |m| && Intact(m)
  {
    hide Written, Load, Crc32, Field, Header;
    var body, m := Written(t, HEADER_SIZE, longStart), Exported(t, longStart);
    var a := Address(t, HEADER_SIZE, longStart);
    WrittenAligned(t, HEADER_SIZE, longStart);
    HeaderRead(|body|, Field(Crc32(0, body)), a / ALLOC_UNIT, body);
    assert m[HEADER_SIZE..HEADER_SIZE + |body|] == body;
  }

  /** A sector is opened only with the magic number and the version in front. */
  lemma IntactBegins(m: seq<Byte>)
    requires |m| >= HEADER_SIZE && HEADER_SIZE + Load(m, 8, 8) <= |m| && Intact(m)
    ensures m[..8] == [0x88, 0xFE, 0xCA, 0x88, 1, 0, 0, 0]
  {
    hide Crc32, Field, Bytes, Number;
    BytesOfNumber(m[0..4]);
    BytesOfNumber(m[4..8]);
    LittleEndian(0x88CA_FE88);
    LittleEndian(1);
    assert m[..8] == m[0..4] + m[4..8];
  }

  /** A sector in which one byte of the index was changed is not opened. */
  lemma ChangedByteIsFound(m: seq<Byte>, k: nat, b: Byte)
    requires |m| >= HEADER_SIZE && HEADER_SIZE + Load(m, 8, 8) <= |m| && Intact(m)
    requires HEADER_SIZE <= k < HEADER_SIZE + Load(m, 8, 8) && b != m[k]
    ensures var m' := m[k := b]; Load(m', 8, 8) == Load(m, 8, 8) && !Intact(m')
  {
    hide Crc32, Number, Field;
    var m', end := m[k := b], HEADER_SIZE + Load(m, 8, 8);
    assert m'[8..16] == m[8..16] && m'[16..20] == m[16..20];
    var before, after := m[HEADER_SIZE..k], m[k + 1..end];
    assert m[HEADER_SIZE..end] == before + [m[k]] + after && m'[HEADER_SIZE..end] == before + [b] + after;
    if Field(Crc32(0, m[HEADER_SIZE..end])) == Field(Crc32(0, m'[HEADER_SIZE..end])) {
      FieldInjective(Crc32(0, m[HEADER_SIZE..end]), Crc32(0, m'[HEADER_SIZE..end]));
      ChangedByteShows(0, before, m[k], b, after);
    }
  }

  /** Following the root offset of an exported sector gives the tree, with leaf fields cut to
      their bit-fields, for any mix of short and long nodes. */
  lemma ExportReadsBack(t: Trie, longStart: nat)
    requires WellFormed(t, 1) && Dense(t) && longStart <= TWO_32 && |Exported(t, longStart)| < TWO_34
    ensures var ix := LoadIndex(Exported(t, longStart));
            IsIndex(ix) && View(ix, GetRootNode(ix)) == Truncated(t)
  {
    hide Written, Bytes, Load, Number, ReadTree, Truncated, Crc32, Field;
    var body, m := Written(t, HEADER_SIZE, longStart), Exported(t, longStart);
    var a := Address(t, HEADER_SIZE, longStart);
    WrittenAligned(t, HEADER_SIZE, longStart);
    HeaderRead(|body|, Field(Crc32(0, body)), a / ALLOC_UNIT, body);
    assert Holds(m, HEADER_SIZE, body) by {
      hide Header;
      assert m[HEADER_SIZE..HEADER_SIZE + |body|] == body;
    }
    ReadBack(m, t, HEADER_SIZE, longStart);
  }

  /** The reader sees exactly the same tree if and only if all leaf fields fit. */
  lemma ExportIsFaithful(t: Trie, longStart: nat)
    requires WellFormed(t, 1) && Dense(t) && longStart <= TWO_32 && |Exported(t, longStart)| < TWO_34
    ensures var ix := LoadIndex(Exported(t, longStart));
            IsIndex(ix) && (View(ix, GetRootNode(ix)) == t <==> FieldsFit(t))
  {
    hide View, Truncated, FieldsFit, Exported;
    ExportReadsBack(t, longStart);
    TruncatedIffFieldsFit(t);
  }

  /** Freezes an index and asks both copies the same question. */
  method SearchBoth(t: Trie, longStart: nat, ctxt: SearchContext, db: MemFormulaDb, page: Page)
      returns (inMemory: Answset, onDisk: Answset, m: seq<Byte>)
    requires WellFormed(t, 1) && FieldsFit(t) && longStart <= TWO_32
    requires Dense(t) && |Exported(t, longStart)| < TWO_34
    requires ctxt.Valid() && WellFormedQuery(ctxt.TheQuery())
    ensures m == Exported(t, longStart)
    ensures onDisk == inMemory
    ensures inMemory == Collect(ctxt.options, db.data, Clamp(page), Matches(ctxt.TheQuery(), t), NOTHING_FOUND)
  {
    hide View, Exported, FieldsFit, Collect, IsIndex, WellFormedQuery, Matches, WellFormed, Dense, Intact;
    var mswr := new MemsectorWriter.Create(longStart);
    var exporter := new Exporter(mswr);
    exporter.ExportToMemsector(t);
    m := mswr.file;
    ExportedSize(t, longStart);
    ExportIsIntact(t, longStart);
    ExportIsFaithful(t, longStart);
    var loaded := MemsectorLoad(m);
    RootView(t);
    TmpIsIndex(t);
    inMemory := ctxt.GetResult(TmpIndex(t), db, page);
    onDisk := ctxt.GetResult(loaded.value, db, page);
  }

  lemma ExportedSize(t: Trie, longStart: nat)
    requires Dense(t)
    ensures |Exported(t, longStart)| == HEADER_SIZE + |Written(t, HEADER_SIZE, longStart)|
  {
  }

  lemma TmpIsIndex(t: Trie)
    ensures IsIndex(TmpIndex(t))
  {
  }
}
