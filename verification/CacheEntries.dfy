/** The two database tables and one entry of the write-back cache. */
module CacheEntries {
  import opened Basics
  import opened WaveFiles
  import opened PartMaps

  datatype Error =
    | ErrExist
    | ErrNotExist
    | ErrInvalidOpts
    | ErrNegativeOffset
    | ErrOffsetPastEnd
    | ErrNotIJson
    | ErrCompact
    | ErrDb
    | ErrCtx
    | ErrTooManyFlushErrors
    | ErrFlushing

  /** How one database transaction went. `commits` says whether its effects are in the tables;
      `ctxLive` whether the caller's context is still live afterwards. */
  datatype TxOutcome = TxOutcome(commits: bool, ctxLive: bool)

  /** What the database does during one store operation. */
  datatype IO = IO(fileRead: bool, partsRead: bool, tx: TxOutcome)

  /** Go's `make([]byte, 0, size)` panics when size is negative. */
  datatype ReadResult = Data(offset: int, data: seq<byte>) | ReadErr(error: Error) | Panic

  function Table(parts: map<FileKey, PartTable>, key: FileKey): PartTable {
    if key in parts then parts[key] else map[]
  }

  function DirtyData(dirty: DirtyParts): PartTable {
    map i | i in dirty :: dirty[i].data
  }

  /** db_wave_file and db_file_data. A transaction either commits as a whole or changes nothing. */
  class Database {
    var files: map<FileKey, WaveFile>
    var parts: map<FileKey, PartTable>

    constructor ()
      ensures files == map[] && parts == map[]
    {
      files, parts := map[], map[];
    }

    ghost function PartsOf(key: FileKey): PartTable
      reads this
    {
      Table(parts, key)
    }

    method InsertFile(file: WaveFile, tx: TxOutcome) returns (err: Option<Error>)
      modifies this`files
      ensures file.key in old(files) ==> err == Some(ErrExist) && files == old(files)
      ensures file.key !in old(files) && !tx.commits ==> err == Some(ErrDb) && files == old(files)
      ensures file.key !in old(files) && tx.commits ==> err == None && files == old(files)[file.key := file]
    {
      if file.key in files {
        return Some(ErrExist);
      }
      if !tx.commits {
        return Some(ErrDb);
      }
      files := files[file.key := file];
      return None;
    }

    method DeleteFile(key: FileKey, tx: TxOutcome) returns (err: Option<Error>)
      modifies this
      ensures err == (if tx.commits then None else Some(ErrDb))
      ensures files == (if tx.commits then old(files) - {key} else old(files))
      ensures parts == (if tx.commits then old(parts) - {key} else old(parts))
    {
      if !tx.commits {
        return Some(ErrDb);
      }
      files := files - {key};
      parts := parts - {key};
      return None;
    }

    /** dbGetFileParts: the rows among `idxs` that exist. */
    method GetFileParts(key: FileKey, idxs: seq<int>, ok: bool) returns (r: Option<DirtyParts>)
      ensures r.Some? <==> ok
      ensures ok ==> r.value == map i | i in PartsOf(key) && i in idxs :: DataCacheEntry(i, PartsOf(key)[i])
    {
      if !ok {
        return None;
      }
      var table := if key in parts then parts[key] else map[];
      r := Some(map i | i in table && i in idxs :: DataCacheEntry(i, table[i]));
    }

    /** dbWriteCacheEntry. The source panics when a part is filed under a foreign index; DirtyFit
        rules that out. */
    method WriteCacheEntry(file: WaveFile, dirty: DirtyParts, replace: bool, tx: TxOutcome) returns (err: Option<Error>)
      requires DirtyFit(dirty)
      modifies this
      ensures err.None? <==> file.key in old(files) && tx.commits
      ensures err.Some? ==> files == old(files) && parts == old(parts)
      ensures err.None? ==> files == old(files)[file.key := old(files)[file.key].(size := file.size)]
      ensures err.None? ==>
                parts == old(parts)[file.key := (if replace then map[] else old(PartsOf(file.key))) + DirtyData(dirty)]
    {
      if file.key !in files {
        return Some(ErrNotExist);
      }
      if !tx.commits {
        return Some(ErrDb);
      }
      files := files[file.key := files[file.key].(size := file.size)];
      var kept: PartTable := if !replace && file.key in parts then parts[file.key] else map[];
      assert forall i :: i in dirty ==> i == dirty[i].partIdx;
      parts := parts[file.key := kept + DirtyData(dirty)];
      return None;
    }
  }

  /** Bytes [offset, offset + nw) of one part after writeToPart. */
  ghost predicate PartWritten(before: seq<byte>, after: seq<byte>, offset: nat, data: seq<byte>, nw: nat)
    requires nw <= |data|
  {
    forall o: nat :: o < PART_SIZE ==>
      ByteAt(after, o) == if offset <= o < offset + nw then data[o - offset] else ByteAt(before, o)
  }

  /** writeToPart: extends the used prefix as needed and copies as much data as fits. */
  method WriteToPart(dce: DataCacheEntry, offset: nat, data: seq<byte>) returns (nw: nat, after: DataCacheEntry)
    requires offset < PART_SIZE && |dce.data| <= PART_SIZE
    ensures nw == Min(|data|, PART_SIZE - offset)
    ensures after.partIdx == dce.partIdx && |after.data| == Max(|dce.data|, offset + nw)
    ensures PartWritten(dce.data, after.data, offset, data, nw)
  {
    var leftInPart := PART_SIZE - offset;
    nw := |data|;
    if nw > leftInPart {
      nw := leftInPart;
    }
    var buf := dce.data;
    if |buf| < offset + nw {
      buf := buf + seq(offset + nw - |buf|, i => 0);
    }
    after := dce.(data := buf[..offset] + data[..nw] + buf[offset + nw..]);
  }

  // ----- what a write leaves in the cache -----

  ghost predicate Touched(opts: FileOpts, lo: int, end: int, p: int)
    requires opts.Valid() && 0 <= lo
  {
    exists x :: lo <= x < end && PartIdxAtOffset(opts, x) == p
  }

  /** Each offset of [lo, lo + |data|) is cached with its byte of data. */
  ghost predicate HoldsData(opts: FileOpts, dirty: DirtyParts, lo: int, data: seq<byte>)
    requires opts.Valid() && 0 <= lo
  {
    forall x {:trigger PartIdxAtOffset(opts, x)} :: lo <= x < lo + |data| ==>
      var p := PartIdxAtOffset(opts, x);
      p in dirty && ByteAt(dirty[p].data, x % PART_SIZE) == data[x - lo]
  }

  /** Cells of the window [wlo, whi) outside [lo, end) are as before, or zero in a part that the
      write had to create. */
  ghost predicate KeepsOthers(opts: FileOpts, before: DirtyParts, after: DirtyParts, lo: int, end: int, wlo: int,
                              whi: int)
    requires opts.Valid() && 0 <= lo
  {
    forall y {:trigger PartIdxAtOffset(opts, y)} :: 0 <= y && wlo <= y < whi && !(lo <= y < end) ==>
      var p := PartIdxAtOffset(opts, y);
      p in after ==>
        ByteAt(after[p].data, y % PART_SIZE) == if p in before then ByteAt(before[p].data, y % PART_SIZE) else 0
  }

  ghost predicate AddsTouched(opts: FileOpts, before: DirtyParts, after: DirtyParts, lo: int, end: int)
    requires opts.Valid() && 0 <= lo
  {
    forall p :: p in after <==> p in before || Touched(opts, lo, end, p)
  }

  ghost predicate Written(opts: FileOpts, before: DirtyParts, after: DirtyParts, lo: int, data: seq<byte>, wlo: int,
                          whi: int)
    requires opts.Valid() && 0 <= lo
  {
    && HoldsData(opts, after, lo, data)
    && KeepsOthers(opts, before, after, lo, lo + |data|, wlo, whi)
    && AddsTouched(opts, before, after, lo, lo + |data|)
  }

  lemma NothingWritten(opts: FileOpts, dirty: DirtyParts, lo: int, wlo: int, whi: int)
    requires opts.Valid() && 0 <= lo
    ensures Written(opts, dirty, dirty, lo, [], wlo, whi)
  {
  }

  /** One turn of the write loop: nw more bytes, all in the part of offset `at`. */
  lemma WriteStep(opts: FileOpts, before: DirtyParts, mid: DirtyParts, lo: int, at: int, data: seq<byte>,
                  wlo: int, whi: int, nw: nat, old_: seq<byte>, new_: DataCacheEntry)
    requires opts.Valid() && 0 <= lo <= at && nw > 0 && at - lo + nw <= |data|
    requires opts.circular ==> |data| <= opts.maxSize && lo + |data| - opts.maxSize <= wlo && whi <= lo + opts.maxSize
    requires Written(opts, before, mid, lo, data[..at - lo], wlo, whi)
    requires nw <= PART_SIZE - at % PART_SIZE
    requires old_ == (var p := PartIdxAtOffset(opts, at); if p in mid then mid[p].data else [])
    requires PartWritten(old_, new_.data, at % PART_SIZE, data[at - lo..], nw)
    ensures Written(opts, before, mid[PartIdxAtOffset(opts, at) := new_], lo, data[..at - lo + nw], wlo, whi)
  {
    var p := PartIdxAtOffset(opts, at);
    var after := mid[p := new_];
    var done := data[..at - lo];
    forall x {:trigger PartIdxAtOffset(opts, x)} | lo <= x < at + nw
      ensures var px := PartIdxAtOffset(opts, x); px in after && ByteAt(after[px].data, x % PART_SIZE) == data[x - lo]
    {
      if x < at {
        assert done[x - lo] == data[x - lo];
        if PartIdxAtOffset(opts, x) == p {
          NotOverwritten(opts, x, at, nw);
        }
      } else {
        SameLogicalPart(opts, x, at);
      }
    }
    forall y {:trigger PartIdxAtOffset(opts, y)} | 0 <= y && wlo <= y < whi && !(lo <= y < at + nw)
        && PartIdxAtOffset(opts, y) in after
      ensures var py := PartIdxAtOffset(opts, y);
              ByteAt(after[py].data, y % PART_SIZE) == if py in before then ByteAt(before[py].data, y % PART_SIZE)
                  else 0
    {
      if PartIdxAtOffset(opts, y) == p {
        NotOverwritten(opts, y, at, nw);
      }
    }
    forall q
      ensures q in after <==> q in before || Touched(opts, lo, at + nw, q)
    {
      TouchedGrows(opts, lo, at, nw, q);
    }
  }

  lemma NotOverwritten(opts: FileOpts, y: int, at: int, nw: nat)
    requires opts.Valid() && 0 <= y && 0 <= at && nw <= PART_SIZE - at % PART_SIZE
    requires !(at <= y < at + nw) && PartIdxAtOffset(opts, y) == PartIdxAtOffset(opts, at)
    requires opts.circular ==> at + nw - opts.maxSize <= y < at + opts.maxSize
    ensures !(at % PART_SIZE <= y % PART_SIZE < at % PART_SIZE + nw)
  {
    if at % PART_SIZE <= y % PART_SIZE < at % PART_SIZE + nw {
      var cell := at - at % PART_SIZE + y % PART_SIZE;
      SameLogicalPart(opts, cell, at);
      CellsDistinct(opts, y, cell);
    }
  }

  lemma TouchedGrows(opts: FileOpts, lo: int, at: int, nw: nat, p: int)
    requires opts.Valid() && 0 <= lo <= at && 0 < nw <= PART_SIZE - at % PART_SIZE
    ensures Touched(opts, lo, at + nw, p) <==> Touched(opts, lo, at, p) || p == PartIdxAtOffset(opts, at)
  {
    forall x | at <= x < at + nw
      ensures PartIdxAtOffset(opts, x) == PartIdxAtOffset(opts, at)
    {
      SameLogicalPart(opts, x, at);
    }
  }

  /** What a write stores and what stays live around it fit in one ring window. */
  lemma WindowFits(f: WaveFile, offset: int, end: int)
    requires f.Valid() && 0 <= offset <= end && !WriteSkipped(f, end)
    ensures offset <= WriteStart(f, offset, end) <= end
    ensures f.opts.circular ==>
              && end - WriteStart(f, offset, end) <= f.opts.maxSize
              && end - f.opts.maxSize <= StartAfter(f, end)
              && SizeAfter(f, end) <= WriteStart(f, offset, end) + f.opts.maxSize
  {
  }

  /** The cached parts before and after writeAt. */
  ghost predicate CacheWritten(f: WaveFile, before: DirtyParts, after: DirtyParts, offset: int, data: seq<byte>) {
    && f.Valid() && 0 <= offset
    && var end := offset + |data|;
       var lo := WriteStart(f, offset, end);
       if WriteSkipped(f, end) then after == before
       else
         && offset <= lo <= end
         && Written(f.opts, before, after, lo, data[lo - offset..], StartAfter(f, end), SizeAfter(f, end))
  }

  /** The head of writeAt: drops what lies before the ring, then all but the last maxSize bytes. */
  method TruncateFront(f: WaveFile, offset: int, data: seq<byte>) returns (skip: bool, lo: int, kept: seq<byte>)
    requires f.Valid() && 0 <= offset
    ensures skip <==> WriteSkipped(f, offset + |data|)
    ensures !skip ==> lo == WriteStart(f, offset, offset + |data|) && offset <= lo <= offset + |data|
    ensures !skip ==> kept == data[lo - offset..]
  {
    lo, kept := offset, data;
    if f.opts.circular {
      var startCirFileOffset := f.size - f.opts.maxSize;
      if lo + |kept| <= startCirFileOffset {
        return true, lo, kept;
      }
      if lo < startCirFileOffset {
        var truncateAmt := startCirFileOffset - lo;
        kept := kept[truncateAmt..];
        lo := lo + truncateAmt;
      }
      if |kept| > f.opts.maxSize {
        var truncateAmt := |kept| - f.opts.maxSize;
        kept := kept[truncateAmt..];
        lo := lo + truncateAmt;
      }
    }
    skip := false;
  }

  // ----- reads -----

  /** The offset and size a read settles on: clipped to the end of the file, then to the ring. */
  function ReadWindow(f: WaveFile, offset: int, size: int, readFull: bool): (int, int) {
    var size := if readFull then f.size - offset else size;
    var size := if offset + size > f.size then f.size - offset else size;
    var start := f.DataStartIdx();
    if offset < start then (start, size - (start - offset)) else (offset, size)
  }

  ghost predicate ReadsStored(opts: FileOpts, dirty: DirtyParts, base: PartTable, offset: int, data: seq<byte>)
    requires opts.Valid() && 0 <= offset
  {
    forall i :: 0 <= i < |data| ==> data[i] == Stored(opts, dirty, base, offset + i)
  }

  lemma ReadsNothing(opts: FileOpts, dirty: DirtyParts, base: PartTable, offset: int)
    requires opts.Valid() && 0 <= offset
    ensures ReadsStored(opts, dirty, base, offset, [])
  {
  }

  lemma ReadsAppend(opts: FileOpts, dirty: DirtyParts, base: PartTable, offset: int, a: seq<byte>, b: seq<byte>)
    requires opts.Valid() && 0 <= offset
    requires ReadsStored(opts, dirty, base, offset, a) && ReadsStored(opts, dirty, base, offset + |a|, b)
    ensures ReadsStored(opts, dirty, base, offset, a + b)
  {
    hide Stored;
    forall i | 0 <= i < |a + b|
      ensures (a + b)[i] == Stored(opts, dirty, base, offset + i)
    {
      if i >= |a| {
        assert (a + b)[i] == b[i - |a|] == Stored(opts, dirty, base, offset + |a| + (i - |a|));
      }
    }
  }

  /** A piece of one part. */
  lemma PieceStored(opts: FileOpts, dirty: DirtyParts, base: PartTable, at: int, used: seq<byte>, piece: seq<byte>)
    requires opts.Valid() && 0 <= at && |piece| <= PART_SIZE - at % PART_SIZE
    requires used == Content(dirty, base, PartIdxAtOffset(opts, at))
    requires forall i :: 0 <= i < |piece| ==> piece[i] == ByteAt(used, at % PART_SIZE + i)
    ensures ReadsStored(opts, dirty, base, at, piece)
  {
    hide PartIdxAtOffset, Content;
    forall i | 0 <= i < |piece|
      ensures piece[i] == Stored(opts, dirty, base, at + i)
    {
      SameLogicalPart(opts, at, at + i);
    }
  }

  class CacheEntry {
    const key: FileKey
    var pinCount: int
    var file: Option<WaveFile>
    var dataEntries: DirtyParts
    var flushErrors: nat

    constructor (key: FileKey)
      ensures this.key == key && pinCount == 0 && file == None && dataEntries == map[] && flushErrors == 0
    {
      this.key := key;
      pinCount, file, dataEntries, flushErrors := 0, None, map[], 0;
    }

    method Clear()
      modifies this`file, this`dataEntries, this`flushErrors
      ensures file == None && dataEntries == map[] && flushErrors == 0
    {
      file, dataEntries, flushErrors := None, map[], 0;
    }

    /** The file row an operation works on. */
    ghost function CurrentFile(db: Database): Option<WaveFile>
      reads this, db
    {
      if file.Some? then file else if key in db.files then Some(db.files[key]) else None
    }

    method LoadFileForRead(db: Database, io: IO) returns (f: Option<WaveFile>, err: Option<Error>)
      ensures err.None? ==> f == CurrentFile(db) && f.Some?
      ensures err.None? <==> file.Some? || (io.fileRead && key in db.files)
      ensures err.Some? ==> err == Some(if io.fileRead then ErrNotExist else ErrDb)
    {
      if file.Some? {
        return file, None;
      }
      if !io.fileRead {
        return None, Some(ErrDb);
      }
      if key !in db.files {
        return None, Some(ErrNotExist);
      }
      return Some(db.files[key]), None;
    }

    method LoadFileIntoCache(db: Database, io: IO) returns (err: Option<Error>)
      modifies this`file
      ensures err.None? <==> old(file).Some? || (io.fileRead && key in db.files)
      ensures err.None? ==> file == old(CurrentFile(db)) && file.Some?
      ensures err.Some? ==> file == old(file) && err == Some(if io.fileRead then ErrNotExist else ErrDb)
    {
      if file.Some? {
        return None;
      }
      var f;
      f, err := LoadFileForRead(db, io);
      if err.Some? {
        return;
      }
      file := f;
    }

    /** prunePartsWithCache */
    method PrunePartsWithCache(parts: seq<int>) returns (rtn: seq<int>)
      ensures forall p :: p in rtn <==> p in parts && p !in dataEntries
    {
      rtn := [];
      for i := 0 to |parts|
        invariant forall p :: p in rtn <==> p in parts[..i] && p !in dataEntries
      {
        assert parts[..i + 1] == parts[..i] + [parts[i]];
        if parts[i] !in dataEntries {
          rtn := rtn + [parts[i]];
        }
      }
      assert parts[..|parts|] == parts;
    }

    /** loadDataPartsIntoCache: the missing parts that the database has become cache entries. */
    method LoadDataPartsIntoCache(db: Database, parts: seq<int>, io: IO) returns (err: Option<Error>)
      modifies this`dataEntries
      ensures err.Some? ==> err == Some(ErrDb) && !io.partsRead && dataEntries == old(dataEntries)
      ensures err.None? ==>
                forall p :: p in dataEntries <==> p in old(dataEntries) || (p in parts && p in db.PartsOf(key))
      ensures err.None? ==>
                forall p :: p in dataEntries ==>
                  dataEntries[p] == if p in old(dataEntries) then old(dataEntries)[p]
                      else DataCacheEntry(p, db.PartsOf(key)[p])
    {
      var missing := PrunePartsWithCache(parts);
      if |missing| == 0 {
        assert missing == [];
        return None;
      }
      var dbParts := db.GetFileParts(key, missing, io.partsRead);
      if dbParts.None? {
        return Some(ErrDb);
      }
      dataEntries := dataEntries + dbParts.value;
      return None;
    }

    /** loadDataPartsForRead: like the above, but leaves the cache alone. */
    method LoadDataPartsForRead(db: Database, parts: seq<int>, io: IO) returns (rtn: Option<DirtyParts>)
      ensures rtn.None? ==> !io.partsRead
      ensures rtn.Some? ==>
                forall p :: p in parts ==> Content(rtn.value, map[], p) == Content(dataEntries, db.PartsOf(key), p)
    {
      var dbParts := PrunePartsWithCache(parts);
      var dbDataParts: DirtyParts := map[];
      if |dbParts| > 0 {
        var loaded := db.GetFileParts(key, dbParts, io.partsRead);
        if loaded.None? {
          return None;
        }
        dbDataParts := loaded.value;
      }
      var found: DirtyParts := map[];
      ghost var base := db.PartsOf(key);
      assert forall p :: p in parts && p !in dataEntries ==> p in dbParts;
      for i := 0 to |parts|
        invariant forall p :: p in parts[..i] ==> Content(found, map[], p) == Content(dataEntries, base, p)
        invariant forall p :: p in found ==> p in parts[..i]
      {
        var partIdx := parts[i];
        assert parts[..i + 1] == parts[..i] + [partIdx];
        if partIdx in dataEntries {
          found := found[partIdx := dataEntries[partIdx]];
        } else if partIdx in dbDataParts {
          found := found[partIdx := dbDataParts[partIdx]];
        }
      }
      assert parts[..|parts|] == parts;
      return Some(found);
    }

    /** The loop of writeAt. The window bounds are ghost: which other cells may matter. */
    method WriteParts(offset: int, data: seq<byte>, ghost wlo: int, ghost whi: int)
      requires file.Some? && file.value.Valid() && DirtyFit(dataEntries) && 0 <= offset
      requires file.value.opts.circular ==>
                 && |data| <= file.value.opts.maxSize
                 && offset + |data| - file.value.opts.maxSize <= wlo && whi <= offset + file.value.opts.maxSize
      modifies this`dataEntries
      ensures DirtyFit(dataEntries)
      ensures Written(file.value.opts, old(dataEntries), dataEntries, offset, data, wlo, whi)
    {
      hide HoldsData, KeepsOthers, AddsTouched, PartWritten;
      var f := file.value;
      ghost var lo, all, before := offset, data, dataEntries;
      NothingWritten(f.opts, before, lo, wlo, whi);
      var data, offset := data, offset;
      while |data| > 0
        invariant DirtyFit(dataEntries)
        invariant lo <= offset && |data| == lo + |all| - offset && data == all[offset - lo..]
        invariant Written(f.opts, before, dataEntries, lo, all[..offset - lo], wlo, whi)
        decreases |data|
      {
        var partIdx := offset / PART_SIZE;
        if f.opts.circular {
          var maxPart := f.opts.maxSize / PART_SIZE;
          partIdx := partIdx % maxPart;
        }
        var partOffset := offset % PART_SIZE;
        var partData := if partIdx in dataEntries then dataEntries[partIdx] else DataCacheEntry(partIdx, []);
        var nw, newDce := WriteToPart(partData, partOffset, data);
        WriteStep(f.opts, before, dataEntries, lo, offset, all, wlo, whi, nw, partData.data, newDce);
        dataEntries := dataEntries[partIdx := newDce];
        data := data[nw..];
        offset := offset + nw;
      }
      assert all[..|all|] == all;
    }

    /** writeAt */
    method WriteAt(offset: int, data: seq<byte>, replace: bool)
      requires file.Some? && file.value.Valid() && DirtyFit(dataEntries)
      requires 0 <= offset && (replace ==> offset == 0)
      modifies this`file, this`dataEntries
      ensures DirtyFit(dataEntries)
      ensures
        var f := if replace then old(file).value.(size := 0) else old(file).value;
        && file == Some(f.(size := SizeAfter(f, offset + |data|)))
        && CacheWritten(f, if replace then map[] else old(dataEntries), dataEntries, offset, data)
    {
      if replace {
        file := Some(file.value.(size := 0));
      }
      var f := file.value;
      var skip, lo, kept := TruncateFront(f, offset, data);
      if skip {
        return;
      }
      var endWriteOffset := lo + |kept|;
      if replace {
        dataEntries := map[];
      }
      WindowFits(f, offset, offset + |data|);
      WriteParts(lo, kept, StartAfter(f, offset + |data|), SizeAfter(f, offset + |data|));
      if endWriteOffset > f.size || replace {
        file := Some(f.(size := endWriteOffset));
      }
    }

    /** The loop of readAt: pieces of the loaded parts, cut at part boundaries. */
    method ReadParts(db: Database, opts: FileOpts, loaded: DirtyParts, offset: int, size: nat)
      returns (rtnData: seq<byte>)
      requires opts.Valid() && 0 <= offset
      requires forall p :: p in PartMap(opts, offset, offset + size) ==>
                             Content(loaded, map[], p) == Content(dataEntries, db.PartsOf(key), p)
      ensures |rtnData| == size && ReadsStored(opts, dataEntries, db.PartsOf(key), offset, rtnData)
    {
      hide ReadsStored;
      ReadsNothing(opts, dataEntries, db.PartsOf(key), offset);
      rtnData := [];
      var amtLeftToRead := size;
      var curReadOffset := offset;
      ghost var base := db.PartsOf(key);
      while amtLeftToRead > 0
        invariant 0 <= amtLeftToRead && curReadOffset + amtLeftToRead == offset + size
        invariant |rtnData| == curReadOffset - offset
        invariant ReadsStored(opts, dataEntries, base, offset, rtnData)
      {
        var partIdx := PartIdxAtOffset(opts, curReadOffset);
        RangeInPartMap(opts, offset, offset + size, curReadOffset);
        var used := if partIdx in loaded then loaded[partIdx].data else [];
        var partOffset := curReadOffset % PART_SIZE;
        var amtToRead := Min(PART_SIZE - partOffset, amtLeftToRead);
        var chunk := seq<byte>(amtToRead, i requires 0 <= i < amtToRead => ByteAt(used, partOffset + i));
        PieceStored(opts, dataEntries, base, curReadOffset, used, chunk);
        ReadsAppend(opts, dataEntries, base, offset, rtnData, chunk);
        rtnData := rtnData + chunk;
        amtLeftToRead := amtLeftToRead - amtToRead;
        curReadOffset := curReadOffset + amtToRead;
      }
    }

    /** readAt */
    method ReadAt(db: Database, offset: int, size: int, readFull: bool, io: IO) returns (r: ReadResult)
      requires file.Some? ==> file.value.Valid()
      requires key in db.files ==> db.files[key].Valid()
      ensures offset < 0 ==> r == ReadErr(ErrNegativeOffset)
      ensures r.ReadErr? && 0 <= offset ==> (file.None? && !io.fileRead) || !io.partsRead || CurrentFile(db).None?
      ensures 0 <= offset && io.fileRead && CurrentFile(db).None? ==> r == ReadErr(ErrNotExist)
      ensures
        !r.ReadErr? ==>
          && 0 <= offset && CurrentFile(db).Some? && (file.Some? || io.fileRead)
          && var f := CurrentFile(db).value;
             var (at, n) := ReadWindow(f, offset, size, readFull);
             && (r.Panic? <==> n < 0)
             && (r.Data? ==>
                   && r.offset == at && |r.data| == n && 0 <= at
                   && ReadsStored(f.opts, dataEntries, db.PartsOf(key), at, r.data))
    {
      if offset < 0 {
        return ReadErr(ErrNegativeOffset);
      }
      var offset, size := offset, size;
      var maybeFile, err := LoadFileForRead(db, io);
      if err.Some? {
        return ReadErr(err.value);
      }
      var f := maybeFile.value;
      if readFull {
        size := f.size - offset;
      }
      if offset + size > f.size {
        size := f.size - offset;
      }
      if f.opts.circular {
        var realDataOffset := 0;
        if f.size > f.opts.maxSize {
          realDataOffset := f.size - f.opts.maxSize;
        }
        if offset < realDataOffset {
          var truncateAmt := realDataOffset - offset;
          offset := offset + truncateAmt;
          size := size - truncateAmt;
        }
      }
      var partMap := ComputePartMap(f.opts, offset, size);
      var parts := GetPartIdxsFromMap(partMap);
      var dataEntryMap := LoadDataPartsForRead(db, parts, io);
      if dataEntryMap.None? {
        return ReadErr(ErrDb);
      }
      if size < 0 {
        return Panic;
      }
      var rtnData := ReadParts(db, f.opts, dataEntryMap.value, offset, size);
      return Data(offset, rtnData);
    }

    /** flushToDB. The fourth failure in a row drops the dirty data; a dead context neither counts
        nor clears, even when the transaction went through. */
    method FlushToDB(db: Database, replace: bool, tx: TxOutcome) returns (err: Option<Error>)
      requires DirtyFit(dataEntries)
      requires file.Some? ==> file.value.key == key
      modifies this`file, this`dataEntries, this`flushErrors, db
      ensures
        var wrote := old(file).Some? && key in old(db.files) && tx.commits;
        && (wrote ==>
              && db.files == old(db.files)[key := old(db.files)[key].(size := old(file).value.size)]
              && var kept := if replace then map[] else old(db.PartsOf(key));
                 db.parts == old(db.parts)[key := kept + DirtyData(old(dataEntries))])
        && (!wrote ==> db.files == old(db.files) && db.parts == old(db.parts))
        && var cleared := old(file).Some? && tx.ctxLive && (wrote || old(flushErrors) >= 3);
           if cleared then
             file == None && dataEntries == map[] && flushErrors == 0
           else
             && file == old(file) && dataEntries == old(dataEntries)
             && flushErrors == old(flushErrors) + if old(file).Some? && tx.ctxLive then 1 else 0
      ensures err.None? <==> old(file).None? || (tx.ctxLive && key in old(db.files) && tx.commits)
    {
      if file.None? {
        return None;
      }
      err := db.WriteCacheEntry(file.value, dataEntries, replace, tx);
      if !tx.ctxLive {
        return Some(ErrCtx);
      }
      if err.Some? {
        flushErrors := flushErrors + 1;
        if flushErrors > 3 {
          Clear();
          return Some(ErrTooManyFlushErrors);
        }
        return;
      }
      Clear();
    }
  }
}
