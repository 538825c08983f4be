/** The plain file that the block store speeds up, and the lemmas that tie one cached file to it. */
module FileModels {
  import opened Basics
  import opened WaveFiles
  import opened PartMaps
  import opened CacheEntries

  /** A file as its users see it: one byte log. `saved` is what a fresh start from the database
      would show, `dirty` whether the cache holds the file, `errors` the failed flushes in a row. */
  datatype FileModel = FileModel(opts: FileOpts, log: seq<byte>, saved: seq<byte>, dirty: bool, errors: nat)

  function Overwrite(log: seq<byte>, offset: nat, data: seq<byte>): seq<byte>
    requires offset <= |log|
  {
    log[..offset] + data + if offset + |data| < |log| then log[offset + |data|..] else []
  }

  function ZeroTail(log: seq<byte>, n: nat): seq<byte>
    requires n <= |log|
  {
    log[..|log| - n] + seq(n, i => 0)
  }

  /** The live part of a log: all of it, or its last maxSize bytes when the file is circular. */
  function LiveStart(opts: FileOpts, log: seq<byte>): nat {
    if opts.circular && |log| > opts.maxSize >= 0 then |log| - opts.maxSize else 0
  }

  ghost predicate SameLive(opts: FileOpts, a: seq<byte>, b: seq<byte>) {
    |a| == |b| && a[LiveStart(opts, a)..] == b[LiveStart(opts, b)..]
  }

  /** The log after WriteAt. The plain file would be `Overwrite`; in the LosesTail family the last,
      partial part of the file reads as zero unless that part was already cached. */
  function WriteAtLog(opts: FileOpts, log: seq<byte>, offset: nat, data: seq<byte>, tailCached: bool): seq<byte>
    requires offset <= |log|
  {
    var plain := Overwrite(log, offset, data);
    var f := WaveFile(FileKey("", ""), opts, |log|);
    if LosesTail(f, offset, offset + |data|) && !tailCached && |log| % PART_SIZE <= |plain| then
      ZeroTail(plain, |log| % PART_SIZE)
    else plain
  }

  /** flushToDB on the model. */
  function FlushModel(m: FileModel, tx: TxOutcome): FileModel {
    if !m.dirty then m
    else if tx.commits then
      if tx.ctxLive then m.(saved := m.log, dirty := false, errors := 0) else m.(saved := m.log)
    else if !tx.ctxLive then m
    else if m.errors >= 3 then m.(log := m.saved, dirty := false, errors := 0)
    else m.(errors := m.errors + 1)
  }

  function FlushAll(m: FileModel, txs: seq<TxOutcome>): FileModel
    decreases |txs|
  {
    if txs == [] then m else FlushAll(FlushModel(m, txs[0]), txs[1..])
  }

  // ----- the tie between cache, tables and model -----

  ghost predicate Represents(m: FileModel, key: FileKey, row: WaveFile, base: PartTable,
                             file: Option<WaveFile>, dirty: DirtyParts, errors: nat)
  {
    && row.key == key && row.opts == m.opts && Holds(row, map[], base, m.saved) && PartsFit(base)
    && DirtyFit(dirty) && m.errors == errors <= 3 && (m.dirty <==> file.Some?)
    && if file.Some? then
         file.value.key == key && file.value.opts == m.opts && Holds(file.value, dirty, base, m.log)
       else
         dirty == map[] && errors == 0 && m.log == m.saved
  }

  /** The parts that a write needs and the cache lacks have been fetched. */
  ghost predicate Loaded(before: DirtyParts, after: DirtyParts, base: PartTable, wanted: set<int>) {
    && (forall p :: p in after <==> p in before || (p in wanted && p in base))
    && (forall p :: p in after ==> after[p] == if p in before then before[p] else DataCacheEntry(p, base[p]))
  }

  lemma LoadedFits(before: DirtyParts, after: DirtyParts, base: PartTable, wanted: set<int>)
    requires DirtyFit(before) && PartsFit(base) && Loaded(before, after, base, wanted)
    ensures DirtyFit(after)
  {
    forall i | i in after
      ensures after[i].partIdx == i && |after[i].data| <= PART_SIZE
    {
      if i !in before {
        assert i in base;
      }
    }
  }

  /** The write destroys offset y: its part was neither cached nor loaded, but the table has it. */
  ghost predicate Lost(f: WaveFile, d1: DirtyParts, base: PartTable, lo: int, end: int, y: int)
    requires f.Valid() && 0 <= lo && 0 <= y
  {
    var p := PartIdxAtOffset(f.opts, y);
    Touched(f.opts, lo, end, p) && p !in d1 && p in base
  }

  /** The live byte a write leaves at offset x. */
  ghost function NewByte(f: WaveFile, d1: DirtyParts, base: PartTable, offset: int, data: seq<byte>, log: seq<byte>,
                         x: int): byte
    requires f.Valid() && f.size == |log| && 0 <= offset <= f.size && 0 <= x < SizeAfter(f, offset + |data|)
    requires offset <= WriteStart(f, offset, offset + |data|)
  {
    var end := offset + |data|;
    var lo := WriteStart(f, offset, end);
    if lo <= x < end then data[x - offset]
    else if x >= |log| || Lost(f, d1, base, lo, end, x) then 0
    else log[x]
  }

  ghost predicate IsNewLog(f: WaveFile, d1: DirtyParts, base: PartTable, offset: int, data: seq<byte>, log: seq<byte>,
                           log': seq<byte>)
  {
    && f.Valid() && f.size == |log| && 0 <= offset <= f.size
    && offset <= WriteStart(f, offset, offset + |data|)
    && |log'| == SizeAfter(f, offset + |data|)
    && forall x {:trigger log'[x]} :: StartAfter(f, offset + |data|) <= x < |log'| ==>
         log'[x] == NewByte(f, d1, base, offset, data, log, x)
  }

  /** A write on any cache state: the new log, byte by byte over the live window. */
  lemma WriteHolds(f: WaveFile, d0: DirtyParts, d1: DirtyParts, d2: DirtyParts, base: PartTable, wanted: set<int>,
                   offset: int, data: seq<byte>, log: seq<byte>, log': seq<byte>)
    requires Holds(f, d0, base, log) && Loaded(d0, d1, base, wanted)
    requires 0 <= offset <= f.size && !WriteSkipped(f, offset + |data|)
    requires CacheWritten(f, d1, d2, offset, data)
    requires IsNewLog(f, d1, base, offset, data, log, log')
    ensures Holds(f.(size := SizeAfter(f, offset + |data|)), d2, base, log')
  {
    forall x | StartAfter(f, offset + |data|) <= x < |log'|
      ensures Stored(f.opts, d2, base, x) == log'[x]
    {
      WriteHoldsAt(f, d0, d1, d2, base, wanted, offset, data, log, x);
    }
  }

  lemma WriteHoldsAt(f: WaveFile, d0: DirtyParts, d1: DirtyParts, d2: DirtyParts, base: PartTable, wanted: set<int>,
                     offset: int, data: seq<byte>, log: seq<byte>, x: int)
    requires f.Valid() && f.size == |log| && Holds(f, d0, base, log) && Loaded(d0, d1, base, wanted)
    requires 0 <= offset <= f.size && !WriteSkipped(f, offset + |data|)
    requires CacheWritten(f, d1, d2, offset, data)
    requires 0 <= x && StartAfter(f, offset + |data|) <= x < SizeAfter(f, offset + |data|)
    ensures Stored(f.opts, d2, base, x) == NewByte(f, d1, base, offset, data, log, x)
  {
    hide PartIdxAtOffset, Holds, Loaded, Written, WriteSkipped, WriteStart, StartAfter, Stored;
    var end := offset + |data|;
    var lo := WriteStart(f, offset, end);
    StoredAfterWrite(f, d0, d1, d2, base, wanted, lo, data[lo - offset..], end, x);
    if !(lo <= x < end) {
      HeldByte(f, d0, base, log, offset, end, x);
    }
  }

  lemma HeldByte(f: WaveFile, d: DirtyParts, base: PartTable, log: seq<byte>, offset: int, end: int, x: int)
    requires Holds(f, d, base, log) && StartAfter(f, end) <= x < SizeAfter(f, end)
    requires 0 <= offset <= f.size && !(WriteStart(f, offset, end) <= x < end)
    ensures x < f.size && Stored(f.opts, d, base, x) == log[x]
  {
  }

  /** One live byte after a write. */
  lemma StoredAfterWrite(f: WaveFile, d0: DirtyParts, d1: DirtyParts, d2: DirtyParts, base: PartTable, wanted: set<int>,
                         lo: int, kept: seq<byte>, end: int, x: int)
    requires f.Valid() && 0 <= lo && end == lo + |kept| && Loaded(d0, d1, base, wanted)
    requires Written(f.opts, d1, d2, lo, kept, StartAfter(f, end), SizeAfter(f, end))
    requires 0 <= x && StartAfter(f, end) <= x < SizeAfter(f, end)
    ensures Stored(f.opts, d2, base, x) ==
              if lo <= x < end then kept[x - lo] else if Lost(f, d1, base, lo, end, x) then 0
                  else Stored(f.opts, d0, base, x)
  {
    var p := PartIdxAtOffset(f.opts, x);
    assert p in d2 <==> p in d1 || Touched(f.opts, lo, end, p);
  }

  /** Before the write nothing depends on which clean parts have been pulled into the cache. */
  lemma LoadHolds(f: WaveFile, d0: DirtyParts, d1: DirtyParts, base: PartTable, wanted: set<int>, log: seq<byte>)
    requires Holds(f, d0, base, log) && Loaded(d0, d1, base, wanted)
    ensures Holds(f, d1, base, log)
  {
    forall x | f.DataStartIdx() <= x < |log|
      ensures Stored(f.opts, d1, base, x) == log[x]
    {
      assert Stored(f.opts, d0, base, x) == log[x];
    }
  }

  /** incompletePartsFromMap of computePartMap, as a set. */
  ghost function Incomplete(opts: FileOpts, offset: int, end: int): set<int>
    requires opts.Valid() && 0 <= offset
  {
    var pm := PartMap(opts, offset, end);
    set p | p in pm && pm[p] != PART_SIZE
  }

  /** The part that holds the end of the file. */
  function TailPart(f: WaveFile): int
    requires f.Valid()
  {
    if f.size == 0 then -1 else PartIdxAtOffset(f.opts, f.size - 1)
  }

  /** The same of a file by its abstract state. */
  function TailOf(m: FileModel): int
    requires m.opts.Valid()
  {
    TailPart(WaveFile(FileKey("", ""), m.opts, |m.log|))
  }

  ghost predicate TailLost(f: WaveFile, d0: DirtyParts, base: PartTable, offset: int, end: int, y: int)
    requires f.Valid()
  {
    LosesTail(f, offset, end) && f.size - f.size % PART_SIZE <= y && TailPart(f) !in d0 && TailPart(f) in base
  }

  lemma LostOnlyTail(f: WaveFile, d0: DirtyParts, d1: DirtyParts, base: PartTable, offset: int, end: int, y: int)
    requires f.Valid() && 0 <= offset <= f.size && offset <= end && !WriteSkipped(f, end)
    requires Loaded(d0, d1, base, Incomplete(f.opts, offset, end))
    requires StartAfter(f, end) <= y < SizeAfter(f, end) && !(WriteStart(f, offset, end) <= y < end)
    requires Lost(f, d1, base, WriteStart(f, offset, end), end, y)
    ensures TailLost(f, d0, base, offset, end, y)
  {
    var p := PartIdxAtOffset(f.opts, y);
    var z :| WriteStart(f, offset, end) <= z < end && PartIdxAtOffset(f.opts, z) == p;
    PartMapSound(f, offset, end, y, z);
    NotFetched(d0, d1, base, PartMap(f.opts, offset, end), p);
    InTailPart(f, y);
  }

  lemma InTailPart(f: WaveFile, y: int)
    requires f.Valid() && f.size - f.size % PART_SIZE <= y < f.size
    ensures 0 <= y && PartIdxAtOffset(f.opts, y) == TailPart(f)
  {
    SameLogicalPart(f.opts, y, f.size - 1);
  }

  lemma NotFetched(d0: DirtyParts, d1: DirtyParts, base: PartTable, pm: map<int, int>, p: int)
    requires Loaded(d0, d1, base, set q | q in pm && pm[q] != PART_SIZE)
    requires p in pm && p in base
    ensures p in d1 <==> p in d0 || pm[p] != PART_SIZE
  {
  }

  lemma TailIsLost(f: WaveFile, d0: DirtyParts, d1: DirtyParts, base: PartTable, offset: int, end: int, y: int)
    requires f.Valid() && 0 <= offset <= f.size && offset <= end && !WriteSkipped(f, end)
    requires Loaded(d0, d1, base, Incomplete(f.opts, offset, end))
    requires y < f.size && TailLost(f, d0, base, offset, end, y)
    ensures Lost(f, d1, base, WriteStart(f, offset, end), end, y)
  {
    TailMarkedComplete(f, offset, end);
    InTailPart(f, y);
    NotFetched(d0, d1, base, PartMap(f.opts, offset, end), TailPart(f));
    TouchesStart(f.opts, WriteStart(f, offset, end), end);
  }

  lemma TouchesStart(opts: FileOpts, lo: int, end: int)
    requires opts.Valid() && 0 <= lo < end
    ensures Touched(opts, lo, end, PartIdxAtOffset(opts, lo))
  {
  }

  /** Exactly which live bytes WriteAt destroys: none, or the last partial part in the LosesTail
      family when the database has that part and the cache does not. */
  lemma LostIsTail(f: WaveFile, d0: DirtyParts, d1: DirtyParts, base: PartTable, offset: int, end: int, y: int)
    requires f.Valid() && 0 <= offset <= f.size && offset <= end && !WriteSkipped(f, end)
    requires Loaded(d0, d1, base, Incomplete(f.opts, offset, end))
    requires StartAfter(f, end) <= y < SizeAfter(f, end) && !(WriteStart(f, offset, end) <= y < end)
    ensures Lost(f, d1, base, WriteStart(f, offset, end), end, y) <==> TailLost(f, d0, base, offset, end, y)
  {
    if Lost(f, d1, base, WriteStart(f, offset, end), end, y) {
      LostOnlyTail(f, d0, d1, base, offset, end, y);
    } else if TailLost(f, d0, base, offset, end, y) {
      TailIsLost(f, d0, d1, base, offset, end, y);
    }
  }

  /** The cache after the steps of WriteAt: fetch the incomplete parts, then write. */
  ghost predicate LoadedAndWritten(f: WaveFile, d0: DirtyParts, d1: DirtyParts, d2: DirtyParts, base: PartTable,
                                   offset: int, data: seq<byte>)
  {
    && f.Valid() && 0 <= offset <= f.size
    && Loaded(d0, d1, base, Incomplete(f.opts, offset, offset + |data|))
    && CacheWritten(f, d1, d2, offset, data)
  }

  lemma SkippedWriteHolds(f: WaveFile, d0: DirtyParts, d1: DirtyParts, d2: DirtyParts, base: PartTable,
                          offset: int, data: seq<byte>, log: seq<byte>)
    requires Holds(f, d0, base, log) && LoadedAndWritten(f, d0, d1, d2, base, offset, data)
    requires WriteSkipped(f, offset + |data|)
    ensures Holds(f.(size := SizeAfter(f, offset + |data|)), d2, base,
                  WriteAtLog(f.opts, log, offset, data, TailPart(f) in d0))
  {
    var end := offset + |data|;
    var log' := WriteAtLog(f.opts, log, offset, data, TailPart(f) in d0);
    hide Loaded, Incomplete, PartIdxAtOffset, Stored, TailPart;
    LoadHolds(f, d0, d1, base, Incomplete(f.opts, offset, end), log);
    forall x | f.DataStartIdx() <= x < |log'|
      ensures Stored(f.opts, d1, base, x) == log'[x]
    {
      assert Stored(f.opts, d1, base, x) == log[x] == log'[x];
    }
  }

  /** WriteAt on the model: the whole effect, for every offset the store accepts. */
  lemma WriteAtHolds(f: WaveFile, d0: DirtyParts, d1: DirtyParts, d2: DirtyParts, base: PartTable,
                     offset: int, data: seq<byte>, log: seq<byte>)
    requires Holds(f, d0, base, log) && LoadedAndWritten(f, d0, d1, d2, base, offset, data)
    ensures Holds(f.(size := SizeAfter(f, offset + |data|)), d2, base,
                  WriteAtLog(f.opts, log, offset, data, TailPart(f) in d0))
  {
    var end := offset + |data|;
    var log' := WriteAtLog(f.opts, log, offset, data, TailPart(f) in d0);
    if WriteSkipped(f, end) {
      SkippedWriteHolds(f, d0, d1, d2, base, offset, data, log);
    } else {
      hide Holds, Loaded, CacheWritten, IsNewLog, Incomplete, PartIdxAtOffset, WriteSkipped, WriteAtLog, SizeAfter;
      NewLogAt(f, d0, d1, base, offset, data, log);
      WriteHolds(f, d0, d1, d2, base, Incomplete(f.opts, offset, end), offset, data, log, log');
    }
  }

  lemma NewLogAt(f: WaveFile, d0: DirtyParts, d1: DirtyParts, base: PartTable, offset: int, data: seq<byte>,
                 log: seq<byte>)
    requires Holds(f, d0, base, log) && 0 <= offset <= f.size && !WriteSkipped(f, offset + |data|)
    requires Loaded(d0, d1, base, Incomplete(f.opts, offset, offset + |data|))
    ensures IsNewLog(f, d1, base, offset, data, log, WriteAtLog(f.opts, log, offset, data, TailPart(f) in d0))
  {
    hide PartIdxAtOffset, TailPart;
    var end := offset + |data|;
    var log' := WriteAtLog(f.opts, log, offset, data, TailPart(f) in d0);
    forall x {:trigger log'[x]} | StartAfter(f, end) <= x < |log'|
      ensures log'[x] == NewByte(f, d1, base, offset, data, log, x)
    {
      if WriteStart(f, offset, end) <= x < end {
        assert log'[x] == data[x - offset];
      } else {
        NewByteOutside(f, d0, d1, base, offset, data, log, x);
      }
    }
  }

  lemma NewByteOutside(f: WaveFile, d0: DirtyParts, d1: DirtyParts, base: PartTable, offset: int, data: seq<byte>,
                       log: seq<byte>, x: int)
    requires Holds(f, d0, base, log) && 0 <= offset <= f.size && !WriteSkipped(f, offset + |data|)
    requires Loaded(d0, d1, base, Incomplete(f.opts, offset, offset + |data|))
    requires StartAfter(f, offset + |data|) <= x < SizeAfter(f, offset + |data|)
    requires !(WriteStart(f, offset, offset + |data|) <= x < offset + |data|)
    ensures
      var log' := WriteAtLog(f.opts, log, offset, data, TailPart(f) in d0);
      x < |log'| && log'[x] == NewByte(f, d1, base, offset, data, log, x)
  {
    LostIsTail(f, d0, d1, base, offset, offset + |data|, x);
    TailOfLog(f, d0, base, log, offset, data, x);
    hide PartIdxAtOffset, WriteAtLog, Lost, TailLost, Loaded, TailPart, Incomplete;
  }

  /** In the tail, an unstored part already read as zero. */
  lemma TailOfLog(f: WaveFile, d0: DirtyParts, base: PartTable, log: seq<byte>, offset: int, data: seq<byte>, x: int)
    requires Holds(f, d0, base, log) && 0 <= offset <= f.size
    requires f.DataStartIdx() <= x < f.size && !(WriteStart(f, offset, offset + |data|) <= x < offset + |data|)
    requires !WriteSkipped(f, offset + |data|) && StartAfter(f, offset + |data|) <= x
    ensures
      var log' := WriteAtLog(f.opts, log, offset, data, TailPart(f) in d0);
      |log'| == SizeAfter(f, offset + |data|) &&
      log'[x] == if TailLost(f, d0, base, offset, offset + |data|, x) then 0 else log[x]
  {
    if f.size - f.size % PART_SIZE <= x {
      UnstoredTailIsZero(f, d0, base, log, x);
    }
    OutsideRange(f, offset, offset + |data|, x);
    OverwriteElsewhere(log, offset, data, x);
    hide PartIdxAtOffset, Stored, TailPart, Overwrite, WriteStart, StartAfter, WriteSkipped, LosesTail, Holds;
  }

  lemma OutsideRange(f: WaveFile, offset: int, end: int, x: int)
    requires f.Valid() && 0 <= offset <= end && StartAfter(f, end) <= x < f.size && f.DataStartIdx() <= x
    requires !(WriteStart(f, offset, end) <= x < end)
    ensures !(offset <= x < end)
  {
  }

  lemma OverwriteElsewhere(log: seq<byte>, offset: nat, data: seq<byte>, x: int)
    requires offset <= |log| && 0 <= x < |log| && !(offset <= x < offset + |data|)
    ensures |Overwrite(log, offset, data)| == Max(|log|, offset + |data|) && Overwrite(log, offset, data)[x] == log[x]
  {
  }

  lemma UnstoredTailIsZero(f: WaveFile, d0: DirtyParts, base: PartTable, log: seq<byte>, x: int)
    requires Holds(f, d0, base, log) && f.DataStartIdx() <= x < f.size && f.size - f.size % PART_SIZE <= x
    ensures TailPart(f) !in d0 && TailPart(f) !in base ==> log[x] == 0
  {
    SameLogicalPart(f.opts, x, f.size - 1);
    assert Stored(f.opts, d0, base, x) == log[x];
  }

  // ----- replacing writes, the extra newline, flushes -----

  /** The cache alone covers every live offset. */
  ghost predicate Covered(f: WaveFile, dirty: DirtyParts)
    requires f.Valid()
  {
    forall x {:trigger PartIdxAtOffset(f.opts, x)} :: f.DataStartIdx() <= x < f.size ==>
        PartIdxAtOffset(f.opts, x) in dirty
  }

  /** A replacing write leaves the new contents, whatever parts the table still has. */
  lemma ReplaceHolds(f: WaveFile, d: DirtyParts, base: PartTable, data: seq<byte>)
    requires f.Valid() && f.size == 0 && CacheWritten(f, map[], d, 0, data)
    ensures
      var g := f.(size := |data|);
      Holds(g, d, base, data) && Covered(g, d)
  {
    var g := f.(size := |data|);
    forall x {:trigger PartIdxAtOffset(f.opts, x)} | g.DataStartIdx() <= x < |data|
      ensures PartIdxAtOffset(f.opts, x) in d && Stored(f.opts, d, base, x) == data[x]
    {
      assert WriteStart(f, 0, |data|) <= x;
    }
  }

  /** The part the next byte goes to is cached, or the table does not have it. */
  ghost predicate EndCached(f: WaveFile, d: DirtyParts, base: PartTable)
    requires f.Valid()
  {
    f.size % PART_SIZE != 0 ==> PartIdxAtOffset(f.opts, f.size) in d || PartIdxAtOffset(f.opts, f.size) !in base
  }

  lemma AppendTouches(f: WaveFile, before: DirtyParts, after: DirtyParts, data: seq<byte>)
    requires !f.opts.circular && CacheWritten(f, before, after, f.size, data)
    ensures AddsTouched(f.opts, before, after, f.size, f.size + |data|)
  {
    var end := f.size + |data|;
    assert WriteStart(f, f.size, end) == f.size && !WriteSkipped(f, end);
    assert data[0..] == data;
    assert AddsTouched(f.opts, before, after, f.size, end);
  }

  lemma AppendCachesEnd(f: WaveFile, d0: DirtyParts, d1: DirtyParts, d2: DirtyParts, base: PartTable, data: seq<byte>)
    requires !f.opts.circular && LoadedAndWritten(f, d0, d1, d2, base, f.size, data)
    ensures EndCached(f.(size := f.size + |data|), d2, base)
  {
    var end := f.size + |data|;
    var p := PartIdxAtOffset(f.opts, end);
    AppendTouches(f, d1, d2, data);
    hide PartIdxAtOffset, Incomplete, CacheWritten, Loaded, Touched, AddsTouched;
    if end % PART_SIZE != 0 && p in base {
      if |data| > 0 {
        LastTouched(f.opts, f.size, end);
      } else {
        EmptyRangeIncomplete(f.opts, end);
        LoadedHas(d0, d1, base, Incomplete(f.opts, f.size, end), p);
      }
      TouchedIsCached(f.opts, d1, d2, f.size, end, p);
    }
  }

  lemma LoadedHas(d0: DirtyParts, d1: DirtyParts, base: PartTable, wanted: set<int>, p: int)
    requires Loaded(d0, d1, base, wanted) && p in wanted && p in base
    ensures p in d1
  {
  }

  lemma TouchedIsCached(opts: FileOpts, before: DirtyParts, after: DirtyParts, lo: int, end: int, p: int)
    requires opts.Valid() && 0 <= lo && AddsTouched(opts, before, after, lo, end)
    requires p in before || Touched(opts, lo, end, p)
    ensures p in after
  {
  }

  lemma LastTouched(opts: FileOpts, lo: int, end: int)
    requires opts.Valid() && 0 <= lo < end && end % PART_SIZE != 0
    ensures Touched(opts, lo, end, PartIdxAtOffset(opts, end))
  {
    SameLogicalPart(opts, end, end - 1);
  }

  lemma EmptyRangeIncomplete(opts: FileOpts, at: int)
    requires opts.Valid() && 0 <= at && at % PART_SIZE != 0
    ensures PartIdxAtOffset(opts, at) in Incomplete(opts, at, at)
  {
    var q := at / PART_SIZE;
    PartMapCovers(opts, at, at, PartLimit(at, at), q);
    SameLogicalPart(opts, at, q * PART_SIZE);
    var r := PartMapLast(opts, at, at, PartLimit(at, at), PartIdxAtOffset(opts, at));
  }

  lemma RepresentsLog(m: FileModel, key: FileKey, row: WaveFile, base: PartTable, f: WaveFile, dirty: DirtyParts,
                      errors: nat)
    requires Represents(m, key, row, base, Some(f), dirty, errors)
    ensures f.opts == m.opts && |m.log| == f.size && Holds(f, dirty, base, m.log)
  {
  }

  lemma RepresentsNext(m: FileModel, key: FileKey, row: WaveFile, base: PartTable, f: WaveFile, dirty: DirtyParts,
                       errors: nat, size: nat, log: seq<byte>, dirty': DirtyParts)
    requires Represents(m, key, row, base, Some(f), dirty, errors) && DirtyFit(dirty')
    requires Holds(f.(size := size), dirty', base, log)
    ensures f.(size := size).Valid()
    ensures Represents(m.(log := log), key, row, base, Some(f.(size := size)), dirty', errors)
  {
  }

  lemma WriteAtRepresents(m: FileModel, key: FileKey, row: WaveFile, base: PartTable, f: WaveFile, d0: DirtyParts,
                          d1: DirtyParts, d2: DirtyParts, errors: nat, offset: int, data: seq<byte>)
    requires Represents(m, key, row, base, Some(f), d0, errors) && DirtyFit(d2)
    requires LoadedAndWritten(f, d0, d1, d2, base, offset, data)
    ensures
      var m' := m.(log := WriteAtLog(m.opts, m.log, offset, data, TailPart(f) in d0));
      var f' := f.(size := SizeAfter(f, offset + |data|));
      && f'.Valid()
      && Represents(m', key, row, base, Some(f'), d2, errors)
      && (!f.opts.circular && offset == |m.log| ==> EndCached(f', d2, base))
  {
    RepresentsLog(m, key, row, base, f, d0, errors);
    hide *;
    WriteAtHolds(f, d0, d1, d2, base, offset, data, m.log);
    RepresentsNext(m, key, row, base, f, d0, errors, SizeAfter(f, offset + |data|),
        WriteAtLog(m.opts, m.log, offset, data, TailPart(f) in d0), d2);
    if !f.opts.circular && offset == f.size {
      AppendCachesEnd(f, d0, d1, d2, base, data);
      AppendedSize(f, data);
    }
  }

  lemma AppendedSize(f: WaveFile, data: seq<byte>)
    requires f.Valid() && !f.opts.circular
    ensures SizeAfter(f, f.size + |data|) == f.size + |data|
  {
  }

  lemma NotLostAtEnd(f: WaveFile, d: DirtyParts, base: PartTable, end: int, x: int)
    requires f.Valid() && !f.opts.circular && EndCached(f, d, base) && end <= f.size + 1 && 0 <= x < f.size
    ensures !Lost(f, d, base, f.size, end, x)
  {
    if Touched(f.opts, f.size, end, PartIdxAtOffset(f.opts, x)) {
      assert x / PART_SIZE == f.size / PART_SIZE;
    }
  }

  /** A write at the end of a plain file needs no loading once EndCached holds. */
  lemma UnloadedAppendHolds(f: WaveFile, d: DirtyParts, d': DirtyParts, base: PartTable, data: seq<byte>,
                            log: seq<byte>)
    requires Holds(f, d, base, log) && !f.opts.circular && EndCached(f, d, base)
    requires |data| <= 1 && CacheWritten(f, d, d', f.size, data)
    ensures Holds(f.(size := f.size + |data|), d', base, log + data)
  {
    var end := f.size + |data|;
    var log' := log + data;
    forall x {:trigger log'[x]} | 0 <= x < f.size
      ensures !Lost(f, d, base, f.size, end, x)
    {
      NotLostAtEnd(f, d, base, end, x);
    }
    hide PartIdxAtOffset, Lost, EndCached;
    assert IsNewLog(f, d, base, f.size, data, log, log');
    WriteHolds(f, d, d, d', base, {}, f.size, data, log, log');
  }

  /** Committing the dirty parts changes nothing a reader can see. */
  lemma CommitHolds(f: WaveFile, d: DirtyParts, base: PartTable, log: seq<byte>, base': PartTable)
    requires Holds(f, d, base, log)
    requires base' == base + DirtyData(d) || (Covered(f, d) && base' == map[] + DirtyData(d))
    ensures Holds(f, map[], base', log) && Holds(f, d, base', log)
  {
    forall x | f.DataStartIdx() <= x < |log|
      ensures Stored(f.opts, map[], base', x) == log[x] && Stored(f.opts, d, base', x) == log[x]
    {
      assert Stored(f.opts, d, base, x) == log[x];
    }
  }

  // ----- what users may rely on -----

  /** WriteAt behaves like a write to a plain file exactly when its range is outside LosesTail:
      outside, it does whatever the cache holds; inside, some cache and some contents break it. */
  lemma WriteAtIsPlainIff(opts: FileOpts, size: nat, offset: nat, len: nat)
    requires opts.Valid() && offset <= size
    ensures !LosesTail(WaveFile(FileKey("", ""), opts, size), offset, offset + len) <==>
            forall log: seq<byte>, data: seq<byte>, cached: bool :: |log| == size && |data| == len ==>
              SameLive(opts, WriteAtLog(opts, log, offset, data, cached), Overwrite(log, offset, data))
  {
    var f := WaveFile(FileKey("", ""), opts, size);
    if LosesTail(f, offset, offset + len) {
      var log: seq<byte> := seq(size, i => 1);
      var data: seq<byte> := seq(len, i => 1);
      var plain := Overwrite(log, offset, data);
      var actual := WriteAtLog(opts, log, offset, data, false);
      assert |plain| == size && actual == ZeroTail(plain, size % PART_SIZE);
      assert plain[size - 1] == 1 && actual[size - 1] == 0;
      var s := LiveStart(opts, plain);
      assert plain[s..][size - 1 - s] != actual[s..][size - 1 - s];
      assert !SameLive(opts, actual, plain);
    }
  }

  /** In particular every write at or after the start of the live data is a plain write. */
  lemma LiveWriteIsPlain(opts: FileOpts, log: seq<byte>, offset: nat, data: seq<byte>, cached: bool)
    requires opts.Valid() && LiveStart(opts, log) <= offset <= |log|
    ensures WriteAtLog(opts, log, offset, data, cached) == Overwrite(log, offset, data)
  {
  }

  /** The smallest instance of the defect: a one-part ring that has taken one byte more than it
      holds. Rewriting offsets 0 .. PART_SIZE blanks the newest byte. */
  lemma WriteBelowWindowBlanksNewestByte(log: seq<byte>, data: seq<byte>)
    requires |log| == PART_SIZE + 1 && |data| == PART_SIZE && log[PART_SIZE] != 0
    ensures
      var opts := FileOpts(PART_SIZE, true, false, 0);
      var after := WriteAtLog(opts, log, 0, data, false);
      && |after| == |log| && after[PART_SIZE] == 0
      && Overwrite(log, 0, data)[PART_SIZE] == log[PART_SIZE]
      && !SameLive(opts, after, Overwrite(log, 0, data))
  {
    var opts := FileOpts(PART_SIZE, true, false, 0);
    var plain := Overwrite(log, 0, data);
    var after := WriteAtLog(opts, log, 0, data, false);
    assert |plain| == PART_SIZE + 1;
    assert plain[1..][PART_SIZE - 1] != after[1..][PART_SIZE - 1];
  }

  /** One flush is invisible to readers exactly when it does not drop unsaved data: it is not the
      fourth failure in a row under a live context. */
  lemma FlushInvisibleIff(m: FileModel, tx: TxOutcome)
    requires m.errors <= 3
    ensures FlushModel(m, tx).log == m.log <==>
              !(m.dirty && !tx.commits && tx.ctxLive && m.errors == 3 && m.log != m.saved)
    ensures FlushModel(m, tx).opts == m.opts
  {
  }

  /** Up to three flushes after a clean start, failing or not, never change what readers see. */
  lemma {:induction false} ThreeFlushesInvisible(m: FileModel, txs: seq<TxOutcome>)
    requires m.errors + |txs| <= 3
    ensures FlushAll(m, txs).log == m.log
    decreases |txs|
  {
    if txs != [] {
      ThreeFlushesInvisible(FlushModel(m, txs[0]), txs[1..]);
    }
  }

  /** The first flush that commits under a live context saves everything, however many came before
      (as long as none of them was a fourth failure in a row). */
  lemma {:induction false} CommitSaves(m: FileModel, txs: seq<TxOutcome>, last: TxOutcome)
    requires m.dirty && m.errors + |txs| <= 3 && last.commits && last.ctxLive
    requires forall i :: 0 <= i < |txs| ==> !txs[i].commits
    ensures FlushAll(m, txs + [last]) == m.(saved := m.log, dirty := false, errors := 0)
    decreases |txs|
  {
    if txs == [] {
      assert (txs + [last])[1..] == [];
    } else {
      assert (txs + [last])[1..] == txs[1..] + [last];
      CommitSaves(FlushModel(m, txs[0]), txs[1..], last);
    }
  }
}
