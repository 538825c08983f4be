/** The bodies that the store runs under one pinned entry, each against the plain file that the
    entry stands for. `m` is that file, or None when the file does not exist. */
module EntryOps {
  import opened Basics
  import opened WaveFiles
  import opened PartMaps
  import opened CacheEntries
  import opened FileModels

  const NEWLINE: byte := 10

  /** The options MakeFile stores: a circular file gets the smallest whole number of parts that is
      enough for what was asked for; nothing else changes. */
  function RoundedOpts(opts: FileOpts): (r: FileOpts)
    ensures r == opts.(maxSize := r.maxSize)
    ensures !opts.circular ==> r.maxSize == opts.maxSize
    ensures opts.circular ==> r.maxSize % PART_SIZE == 0 && opts.maxSize <= r.maxSize < opts.maxSize + PART_SIZE
  {
    if opts.circular && opts.maxSize % PART_SIZE != 0 then
      opts.(maxSize := (opts.maxSize / PART_SIZE + 1) * PART_SIZE)
    else opts
  }

  predicate OptsAccepted(opts: FileOpts) {
    && 0 <= opts.maxSize && 0 <= opts.ijsonBudget
    && (opts.circular ==> 0 < opts.maxSize && !opts.ijson)
    && (opts.ijsonBudget > 0 ==> opts.ijson)
  }

  /** The head of MakeFile. */
  method CheckOpts(opts: FileOpts) returns (stored: Option<FileOpts>)
    ensures stored.Some? <==> OptsAccepted(opts)
    ensures stored.Some? <==>
              && 0 <= opts.maxSize && (opts.circular ==> 0 < opts.maxSize && !opts.ijson)
              && 0 <= opts.ijsonBudget && (0 < opts.ijsonBudget ==> opts.ijson)
    ensures stored.Some? ==> stored.value == RoundedOpts(opts) && stored.value.Valid()
    ensures stored.Some? ==>
              var size := stored.value.maxSize;
              && stored.value == opts.(maxSize := size)
              && (!opts.circular ==> size == opts.maxSize)
              && (opts.circular ==> size % PART_SIZE == 0 && opts.maxSize <= size < opts.maxSize + PART_SIZE)
  {
    if opts.maxSize < 0 {
      return None;
    }
    if opts.circular && opts.maxSize <= 0 {
      return None;
    }
    if opts.circular && opts.ijson {
      return None;
    }
    var rounded := opts;
    if opts.circular {
      if opts.maxSize % PART_SIZE != 0 {
        rounded := opts.(maxSize := (opts.maxSize / PART_SIZE + 1) * PART_SIZE);
      }
    }
    if opts.ijsonBudget > 0 && !opts.ijson {
      return None;
    }
    if opts.ijsonBudget < 0 {
      return None;
    }
    return Some(rounded);
  }

  /** What a read of file m returns: the live bytes of the range, or a panic for a negative size. */
  function ReadModel(m: FileModel, offset: nat, size: int, readFull: bool): ReadResult
    requires m.opts.Valid()
  {
    var f := WaveFile(FileKey("", ""), m.opts, |m.log|);
    var (at, n) := ReadWindow(f, offset, size, readFull);
    if n < 0 then Panic else Data(at, m.log[at..at + n])
  }

  /** Exactly when a read asks Go for a buffer of negative size. */
  lemma ReadPanicsIff(m: FileModel, offset: nat, size: int, readFull: bool)
    requires m.opts.Valid()
    ensures ReadModel(m, offset, size, readFull).Panic? <==>
              offset > |m.log| || (!readFull && (size < 0 || offset + size < LiveStart(m.opts, m.log)))
  {
  }

  // ----- one entry against one model -----

  ghost predicate Fits(entry: CacheEntry, db: Database, m: FileModel)
    reads entry, db
  {
    && entry.key in db.files
    && Represents(m, entry.key, db.files[entry.key], db.PartsOf(entry.key), entry.file, entry.dataEntries,
        entry.flushErrors)
  }

  /** The entry of a file that does not exist. */
  ghost predicate Vacant(entry: CacheEntry, db: Database)
    reads entry, db
  {
    && entry.key !in db.files && PartsFit(db.PartsOf(entry.key))
    && entry.file == None && entry.dataEntries == map[] && entry.flushErrors == 0
  }

  ghost predicate Tracks(entry: CacheEntry, db: Database, m: Option<FileModel>)
    reads entry, db
  {
    && (m.Some? ==> Fits(entry, db, m.value))
    && (m.None? ==> Vacant(entry, db))
  }

  /** The same for a file that has no cache entry. */
  ghost predicate Clean(db: Database, key: FileKey, m: Option<FileModel>)
    reads db
  {
    if m.Some? then
      && key in db.files
      && Represents(m.value, key, db.files[key], db.PartsOf(key), None, map[], 0)
    else key !in db.files && PartsFit(db.PartsOf(key))
  }

  /** Everything the tables say about one key. */
  ghost function RowsOf(db: Database, key: FileKey): (Option<WaveFile>, PartTable)
    reads db
  {
    (if key in db.files then Some(db.files[key]) else None, db.PartsOf(key))
  }

  /** The tables are as before except for one key. */
  twostate predicate OthersSame(db: Database, key: FileKey)
    reads db
  {
    forall k :: k != key ==> RowsOf(db, k) == old(RowsOf(db, k))
  }

  // ----- steps -----

  /** loadFileIntoCache fails: there is no file, or the database has to be asked and does not answer. */
  predicate Unloadable(m: Option<FileModel>, io: IO) {
    m.None? || (!m.value.dirty && !io.fileRead)
  }

  /** What loadFileIntoCache alone makes of a file: its row is in the cache. */
  function Touched(m: Option<FileModel>, io: IO): Option<FileModel> {
    if Unloadable(m, io) then m else Some(m.value.(dirty := true))
  }

  method LoadFile(entry: CacheEntry, db: Database, io: IO, ghost m: Option<FileModel>) returns (err: Option<Error>)
    requires Tracks(entry, db, m)
    modifies entry`file
    ensures err.Some? <==> Unloadable(m, io)
    ensures err.None? ==> entry.file.Some? && Fits(entry, db, m.value.(dirty := true))
    ensures err.Some? ==> Tracks(entry, db, m) && err == Some(if io.fileRead then ErrNotExist else ErrDb)
  {
    err := entry.LoadFileIntoCache(db, io);
  }

  /** Fetch the parts that a write of [offset, offset + len) would leave incomplete. */
  method LoadIncomplete(entry: CacheEntry, db: Database, opts: FileOpts, offset: int, len: nat, io: IO)
    returns (err: Option<Error>)
    requires opts.Valid() && 0 <= offset && DirtyFit(entry.dataEntries) && PartsFit(db.PartsOf(entry.key))
    modifies entry`dataEntries
    ensures err.Some? ==> err == Some(ErrDb) && !io.partsRead && entry.dataEntries == old(entry.dataEntries)
    ensures err.None? ==>
              && DirtyFit(entry.dataEntries)
              && Loaded(old(entry.dataEntries), entry.dataEntries, db.PartsOf(entry.key),
                  Incomplete(opts, offset, offset + len))
  {
    var partMap := ComputePartMap(opts, offset, len);
    var incompleteParts := IncompletePartsFromMap(partMap);
    ghost var d0 := entry.dataEntries;
    err := entry.LoadDataPartsIntoCache(db, incompleteParts, io);
    if err.None? {
      LoadedFits(d0, entry.dataEntries, db.PartsOf(entry.key), Incomplete(opts, offset, offset + len));
    }
  }

  /** The common middle of WriteAt, AppendData and AppendIJson: fetch, then write. */
  method LoadAndWrite(entry: CacheEntry, db: Database, offset: int, data: seq<byte>, io: IO, ghost m: FileModel)
    returns (err: Option<Error>, ghost cached: bool)
    requires Fits(entry, db, m) && entry.file.Some? && 0 <= offset <= |m.log|
    modifies entry`file, entry`dataEntries
    ensures entry.file.Some?
    ensures err.Some? ==> err == Some(ErrDb) && !io.partsRead && Fits(entry, db, m)
    ensures err.None? ==> Fits(entry, db, m.(log := WriteAtLog(m.opts, m.log, offset, data, cached)))
    ensures err.None? ==> m.opts.Valid() && cached == (TailOf(m) in old(entry.dataEntries))
    ensures err.None? && !m.opts.circular && offset == |m.log| ==>
              entry.file.value.Valid() && EndCached(entry.file.value, entry.dataEntries, db.PartsOf(entry.key))
  {
    hide WriteAtLog, EndCached, PartIdxAtOffset, Incomplete, CacheWritten, Loaded, SizeAfter;
    ghost var f, d0, base := entry.file.value, entry.dataEntries, db.PartsOf(entry.key);
    cached := TailPart(f) in d0;
    err := LoadIncomplete(entry, db, entry.file.value.opts, offset, |data|, io);
    if err.Some? {
      return;
    }
    ghost var d1 := entry.dataEntries;
    entry.WriteAt(offset, data, false);
    WriteAtRepresents(m, entry.key, db.files[entry.key], base, f, d0, d1, entry.dataEntries, entry.flushErrors, offset,
        data);
  }

  /** entry.writeAt(0, data, true) */
  method Replace(entry: CacheEntry, db: Database, data: seq<byte>, ghost m: FileModel)
    requires Fits(entry, db, m) && entry.file.Some?
    modifies entry`file, entry`dataEntries
    ensures entry.file.Some? && Fits(entry, db, m.(log := data))
    ensures entry.file.value.Valid() && Covered(entry.file.value, entry.dataEntries)
  {
    ghost var f := entry.file.value;
    entry.WriteAt(0, data, true);
    ReplaceHolds(f.(size := 0), entry.dataEntries, db.PartsOf(entry.key), data);
  }

  /** The second writeAt of AppendIJson: one newline, with no part fetched for it. */
  method WriteNewline(entry: CacheEntry, db: Database, ghost m: FileModel)
    requires Fits(entry, db, m) && entry.file.Some? && !m.opts.circular
    requires entry.file.value.Valid() && EndCached(entry.file.value, entry.dataEntries, db.PartsOf(entry.key))
    modifies entry`file, entry`dataEntries
    ensures entry.file.Some? && Fits(entry, db, m.(log := m.log + [NEWLINE]))
  {
    ghost var f, d := entry.file.value, entry.dataEntries;
    entry.WriteAt(entry.file.value.size, [NEWLINE], false);
    UnloadedAppendHolds(f, d, entry.dataEntries, db.PartsOf(entry.key), [NEWLINE], m.log);
  }

  /** flushToDB */
  method Flush(entry: CacheEntry, db: Database, replace: bool, tx: TxOutcome, ghost m: Option<FileModel>)
    returns (err: Option<Error>)
    requires Tracks(entry, db, m)
    requires replace ==> entry.file.Some? && entry.file.value.Valid() && Covered(entry.file.value, entry.dataEntries)
    modifies entry`file, entry`dataEntries, entry`flushErrors, db
    ensures OthersSame(db, entry.key)
    ensures Tracks(entry, db, if m.Some? then Some(FlushModel(m.value, tx)) else None)
    ensures err.None? <==> m.None? || !m.value.dirty || (tx.commits && tx.ctxLive)
  {
    ghost var f, d, base := entry.file, entry.dataEntries, db.PartsOf(entry.key);
    err := entry.FlushToDB(db, replace, tx);
    if f.Some? && tx.commits {
      CommitHolds(f.value, d, base, m.value.log, db.PartsOf(entry.key));
    }
  }

  lemma WindowInLog(f: WaveFile, offset: nat, size: int, readFull: bool)
    requires f.Valid()
    ensures
      var (at, n) := ReadWindow(f, offset, size, readFull);
      0 <= n ==> f.DataStartIdx() <= at && at + n <= f.size
  {
  }

  lemma ReadMatches(f: WaveFile, dirty: DirtyParts, base: PartTable, log: seq<byte>, at: int, data: seq<byte>)
    requires Holds(f, dirty, base, log) && f.DataStartIdx() <= at && at + |data| <= |log|
    requires ReadsStored(f.opts, dirty, base, at, data)
    ensures data == log[at..at + |data|]
  {
    forall i | 0 <= i < |data|
      ensures data[i] == log[at..at + |data|][i]
    {
      assert log[at + i] == Stored(f.opts, dirty, base, at + i);
    }
  }

  lemma StoredIsModel(f: WaveFile, dirty: DirtyParts, base: PartTable, m: FileModel, offset: nat, size: int,
                      readFull: bool, r: ReadResult)
    requires Holds(f, dirty, base, m.log) && f.opts == m.opts
    requires
      var (at, n) := ReadWindow(f, offset, size, readFull);
      if n < 0 then r == Panic
      else r.Data? && r.offset == at && |r.data| == n && ReadsStored(f.opts, dirty, base, at, r.data)
    ensures r == ReadModel(m, offset, size, readFull)
  {
    WindowInLog(f, offset, size, readFull);
    if r.Data? {
      ReadMatches(f, dirty, base, m.log, r.offset, r.data);
    }
  }

  ghost predicate ReadOk(m: Option<FileModel>, offset: int, size: int, readFull: bool, io: IO, r: ReadResult) {
    if offset < 0 then r == ReadErr(ErrNegativeOffset)
    else if !r.ReadErr? then
      !Unloadable(m, io) && m.value.opts.Valid() && r == ReadModel(m.value, offset, size, readFull)
    else if io.fileRead && m.None? then r == ReadErr(ErrNotExist)
    else Unloadable(m, io) || !io.partsRead
  }

  method Read(entry: CacheEntry, db: Database, offset: int, size: int, readFull: bool, io: IO,
              ghost m: Option<FileModel>)
    returns (r: ReadResult)
    requires Tracks(entry, db, m)
    ensures ReadOk(m, offset, size, readFull, io, r)
  {
    r := entry.ReadAt(db, offset, size, readFull, io);
    if !r.ReadErr? {
      StoredIsModel(entry.CurrentFile(db).value, entry.dataEntries, db.PartsOf(entry.key), m.value, offset, size,
          readFull, r);
    }
  }

  // ----- whole bodies -----

  method InsertBody(entry: CacheEntry, db: Database, opts: FileOpts, tx: TxOutcome, ghost m: Option<FileModel>)
    returns (err: Option<Error>)
    requires Tracks(entry, db, m)
    requires opts.Valid()
    modifies db
    ensures OthersSame(db, entry.key)
    ensures err == if m.Some? then Some(ErrExist) else if tx.commits then None else Some(ErrDb)
    ensures Tracks(entry, db, if err.None? then Some(FileModel(opts, [], [], false, 0)) else m)
  {
    if entry.file.Some? {
      return Some(ErrExist);
    }
    err := db.InsertFile(WaveFile(entry.key, opts, 0), tx);
  }

  method DeleteBody(entry: CacheEntry, db: Database, tx: TxOutcome, ghost m: Option<FileModel>)
    returns (err: Option<Error>)
    requires Tracks(entry, db, m)
    modifies entry`file, entry`dataEntries, entry`flushErrors, db
    ensures OthersSame(db, entry.key)
    ensures err.None? <==> tx.commits
    ensures Tracks(entry, db, if tx.commits then None else m)
  {
    err := db.DeleteFile(entry.key, tx);
    if err.Some? {
      return;
    }
    entry.Clear();
  }

  function WriteFileModel(m: Option<FileModel>, data: seq<byte>, io: IO): Option<FileModel> {
    if Unloadable(m, io) then m else Some(FlushModel(m.value.(log := data, dirty := true), io.tx))
  }

  method WriteFileBody(entry: CacheEntry, db: Database, data: seq<byte>, io: IO, ghost m: Option<FileModel>)
    returns (err: Option<Error>)
    requires Tracks(entry, db, m)
    modifies entry`file, entry`dataEntries, entry`flushErrors, db
    ensures OthersSame(db, entry.key)
    ensures Tracks(entry, db, WriteFileModel(m, data, io))
    ensures err.None? <==> !Unloadable(m, io) && io.tx.commits && io.tx.ctxLive
  {
    err := LoadFile(entry, db, io, m);
    if err.None? {
      Replace(entry, db, data, m.value.(dirty := true));
      err := Flush(entry, db, true, io.tx, Some(m.value.(log := data, dirty := true)));
    }
  }

  /** WriteAt succeeds with the log of WriteAtLog, or fails for a stated reason and writes nothing.
      Only a dirty file can have its tail cached. */
  ghost predicate WroteAt(m: Option<FileModel>, offset: int, data: seq<byte>, io: IO, err: Option<Error>,
                          after: Option<FileModel>, cached: bool)
  {
    if offset < 0 then err.Some? && after == m
    else if err.Some? then
      after == Touched(m, io) && (Unloadable(m, io) || offset > |m.value.log| || !io.partsRead)
    else
      && !Unloadable(m, io) && offset <= |m.value.log| && (cached ==> m.value.dirty)
      && after == Some(m.value.(log := WriteAtLog(m.value.opts, m.value.log, offset, data, cached), dirty := true))
  }

  lemma WroteDirty(m: Option<FileModel>, offset: int, data: seq<byte>, io: IO, err: Option<Error>,
                   after: Option<FileModel>, cached: bool)
    requires WroteAt(m, offset, data, io, err, after, cached) && err.None? && cached
    ensures m.Some? && m.value.dirty
  {
  }

  method WriteAtBody(entry: CacheEntry, db: Database, offset: nat, data: seq<byte>, io: IO, ghost m: Option<FileModel>)
    returns (err: Option<Error>, ghost after: Option<FileModel>, ghost cached: bool)
    requires Tracks(entry, db, m)
    modifies entry`file, entry`dataEntries
    ensures Tracks(entry, db, after)
    ensures WroteAt(m, offset, data, io, err, after, cached)
    ensures err.None? ==> m.value.opts.Valid() && cached == (TailOf(m.value) in old(entry.dataEntries))
  {
    after, cached := m, false;
    err := LoadFile(entry, db, io, m);
    if err.None? {
      after := Some(m.value.(dirty := true));
      if offset > entry.file.value.size {
        err := Some(ErrOffsetPastEnd);
      } else {
        err, cached := LoadAndWrite(entry, db, offset, data, io, after.value);
        if err.None? {
          after := Some(after.value.(log := WriteAtLog(m.value.opts, m.value.log, offset, data, cached)));
        }
      }
    }
  }

  /** A write at the end of the log is an append, for every ring and every cache state. */
  lemma AppendIsPlain(opts: FileOpts, log: seq<byte>, data: seq<byte>, cached: bool)
    requires opts.Valid()
    ensures WriteAtLog(opts, log, |log|, data, cached) == log + data
  {
    LiveWriteIsPlain(opts, log, |log|, data, cached);
  }

  ghost predicate Appended(m: Option<FileModel>, data: seq<byte>, io: IO, err: Option<Error>, after: Option<FileModel>)
  {
    if err.Some? then
      after == Touched(m, io) && (Unloadable(m, io) || !io.partsRead)
    else
      !Unloadable(m, io) && after == Some(m.value.(log := m.value.log + data, dirty := true))
  }

  method AppendBody(entry: CacheEntry, db: Database, data: seq<byte>, io: IO, ghost m: Option<FileModel>)
    returns (err: Option<Error>, ghost after: Option<FileModel>)
    requires Tracks(entry, db, m)
    modifies entry`file, entry`dataEntries
    ensures Tracks(entry, db, after)
    ensures Appended(m, data, io, err, after)
  {
    after := m;
    err := LoadFile(entry, db, io, m);
    if err.None? {
      after := Some(m.value.(dirty := true));
      ghost var cached;
      err, cached := LoadAndWrite(entry, db, entry.file.value.size, data, io, after.value);
      if err.None? {
        AppendIsPlain(m.value.opts, m.value.log, data, cached);
        after := Some(m.value.(log := m.value.log + data, dirty := true));
      }
    }
  }

  /** compactIJson: read the whole log, rewrite it as one command, replace the file. `compactor` is
      CompactIJson on bytes, None when it reports an error. */
  method Compact(entry: CacheEntry, db: Database, compactor: seq<byte> -> Option<seq<byte>>, io: IO, ghost m: FileModel)
    returns (err: Option<Error>)
    requires Fits(entry, db, m) && entry.file.Some? && !m.opts.circular
    modifies entry`file, entry`dataEntries
    ensures entry.file.Some?
    ensures err.None? ==> compactor(m.log).Some? && Fits(entry, db, m.(log := compactor(m.log).value))
    ensures err.Some? ==> Fits(entry, db, m) && (!io.partsRead || compactor(m.log).None?)
  {
    var r := Read(entry, db, 0, 0, true, io, Some(m));
    if r.ReadErr? {
      return Some(r.error);
    }
    assert r.data == m.log[0..|m.log|] == m.log;
    var newBytes := compactor(r.data);
    if newBytes.None? {
      return Some(ErrCompact);
    }
    Replace(entry, db, newBytes.value, m);
    err := None;
  }

  /** CompactIJson replaces the log, or fails for a stated reason and writes nothing. */
  ghost predicate CompactedTo(m: Option<FileModel>, compactor: seq<byte> -> Option<seq<byte>>, io: IO,
                              err: Option<Error>, after: Option<FileModel>)
  {
    if err.Some? then
      && after == Touched(m, io)
      && (Unloadable(m, io) || !m.value.opts.ijson || compactor(m.value.log).None? || !io.partsRead)
    else
      && !Unloadable(m, io) && m.value.opts.ijson && compactor(m.value.log).Some?
      && after == Some(m.value.(log := compactor(m.value.log).value, dirty := true))
  }

  method CompactIJsonBody(entry: CacheEntry, db: Database, compactor: seq<byte> -> Option<seq<byte>>, io: IO,
                          ghost m: Option<FileModel>)
    returns (err: Option<Error>, ghost after: Option<FileModel>)
    requires Tracks(entry, db, m)
    modifies entry`file, entry`dataEntries
    ensures Tracks(entry, db, after)
    ensures CompactedTo(m, compactor, io, err, after)
  {
    after := m;
    err := LoadFile(entry, db, io, m);
    if err.None? {
      after := Some(m.value.(dirty := true));
      if !entry.file.value.opts.ijson {
        err := Some(ErrNotIJson);
      } else {
        err := Compact(entry, db, compactor, io, after.value);
        if err.None? {
          after := Some(m.value.(log := compactor(m.value.log).value, dirty := true));
        }
      }
    }
  }

  /** The log after AppendIJson: the command and a newline, then possibly compacted. */
  function AppendedIJson(log: seq<byte>, command: seq<byte>): seq<byte> {
    log + command + [NEWLINE]
  }

  /** What AppendIJson does to a file. It fails before it writes anything, because the file cannot be
      loaded, is no ijson file, or a part it needs cannot be read; or in the compaction at its end, and
      then the command stays. */
  ghost predicate IJsonAppended(m: Option<FileModel>, command: seq<byte>, compactNow: bool,
                                compactor: seq<byte> -> Option<seq<byte>>, io: IO,
                                err: Option<Error>, after: Option<FileModel>)
  {
    if Unloadable(m, io) || !m.value.opts.ijson then err.Some? && after == Touched(m, io)
    else
      var appended := AppendedIJson(m.value.log, command);
      var compacts := compactNow && |m.value.log| > 0;
      if err.None? then
        && (compacts ==> compactor(appended).Some?)
        && after == Some(m.value.(dirty := true, log := if compacts then compactor(appended).value else appended))
      else
        || (after == Touched(m, io) && !io.partsRead)
        || (after == Some(m.value.(log := appended, dirty := true))
            && compacts && (!io.partsRead || compactor(appended).None?))
  }

  /** Exactly when an AppendIJson for which the parts can be read fails; and that it has had its effect
      by then, unless there is no ijson file to append to. */
  lemma AppendIJsonFailsIff(m: Option<FileModel>, command: seq<byte>, compactNow: bool,
                            compactor: seq<byte> -> Option<seq<byte>>, io: IO,
                            err: Option<Error>, after: Option<FileModel>)
    requires IJsonAppended(m, command, compactNow, compactor, io, err, after) && io.partsRead
    ensures
      var missing := Unloadable(m, io) || !m.value.opts.ijson;
      && (err.Some? <==>
            missing ||
            (compactNow && |m.value.log| > 0 && compactor(AppendedIJson(m.value.log, command)).None?))
      && (err.Some? && !missing ==>
            after == Some(m.value.(log := AppendedIJson(m.value.log, command), dirty := true)))
  {
  }

  /** `compactNow` is the outcome of the trigger test on the command counters. */
  method AppendIJsonBody(entry: CacheEntry, db: Database, command: seq<byte>, compactNow: bool,
                         compactor: seq<byte> -> Option<seq<byte>>, io: IO, ghost m: Option<FileModel>)
    returns (err: Option<Error>, ghost after: Option<FileModel>)
    requires Tracks(entry, db, m)
    modifies entry`file, entry`dataEntries
    ensures Tracks(entry, db, after)
    ensures IJsonAppended(m, command, compactNow, compactor, io, err, after)
  {
    after := m;
    err := LoadFile(entry, db, io, m);
    if err.Some? {
      return;
    }
    after := Some(m.value.(dirty := true));
    if !entry.file.value.opts.ijson {
      return Some(ErrNotIJson), after;
    }
    var oldSize := entry.file.value.size;
    ghost var cached;
    err, cached := LoadAndWrite(entry, db, entry.file.value.size, command, io, after.value);
    if err.Some? {
      return;
    }
    AppendIsPlain(m.value.opts, m.value.log, command, cached);
    WriteNewline(entry, db, m.value.(log := m.value.log + command, dirty := true));
    ghost var appended := AppendedIJson(m.value.log, command);
    after := Some(m.value.(log := appended, dirty := true));
    if oldSize == 0 || !compactNow {
      return None, after;
    }
    err := Compact(entry, db, compactor, io, after.value);
    if err.None? {
      after := Some(m.value.(log := compactor(appended).value, dirty := true));
    }
  }
}
