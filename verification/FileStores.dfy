/** The block store: a map of cache entries over the database. Each operation pins the entry of its
    key, runs one body of EntryOps and unpins. The ghost field `model` is the set of plain files
    that the store stands for. */
module FileStores {
  import opened Basics
  import opened WaveFiles
  import opened CacheEntries
  import opened FileModels
  import opened EntryOps

  type Models = map<FileKey, FileModel>

  function Lookup(models: Models, key: FileKey): Option<FileModel> {
    if key in models then Some(models[key]) else None
  }

  function Update(models: Models, key: FileKey, m: Option<FileModel>): Models {
    if m.Some? then models[key := m.value] else models - {key}
  }

  function FlushLookup(m: Option<FileModel>, tx: TxOutcome): Option<FileModel> {
    if m.Some? then Some(FlushModel(m.value, tx)) else None
  }

  /** FlushCache over the files in the given order. */
  function FlushModels(models: Models, order: seq<FileKey>, txs: FileKey -> TxOutcome): Models
    decreases |order|
  {
    if order == [] then models
    else FlushModels(Update(models, order[0], FlushLookup(Lookup(models, order[0]), txs(order[0]))), order[1..], txs)
  }

  /** FlushCache: distinct dirty files in some order, all of them unless one failed; that one is the
      last and all before it are saved. */
  ghost predicate FlushedInOrder(before: Models, after: Models, order: seq<FileKey>, txs: FileKey -> TxOutcome,
                                 numCommitted: nat, err: Option<Error>)
  {
    && after == FlushModels(before, order, txs)
    && (forall i, j :: 0 <= i < j < |order| ==> order[i] != order[j])
    && (forall i :: 0 <= i < |order| ==> order[i] in before && before[order[i]].dirty)
    && |order| == numCommitted + (if err.None? then 0 else 1)
    && (err.None? ==> forall k :: k in before && before[k].dirty ==> k in order)
    && (forall i :: 0 <= i < numCommitted ==> txs(order[i]).commits && txs(order[i]).ctxLive)
  }

  lemma {:induction false} FlushModelsExtend(models: Models, order: seq<FileKey>, key: FileKey,
                                             txs: FileKey -> TxOutcome)
    ensures
      var mid := FlushModels(models, order, txs);
      FlushModels(models, order + [key], txs) == Update(mid, key, FlushLookup(Lookup(mid, key), txs(key)))
    decreases |order|
  {
    if order == [] {
      assert (order + [key])[1..] == [];
    } else {
      assert (order + [key])[1..] == order[1..] + [key];
      FlushModelsExtend(Update(models, order[0], FlushLookup(Lookup(models, order[0]), txs(order[0]))), order[1..], key,
          txs);
    }
  }

  /** FlushCache under way: the files in `order` are saved, the dirty ones in `left` untouched. */
  ghost predicate FlushProgress(start: Models, now: Models, order: seq<FileKey>, txs: FileKey -> TxOutcome,
                                left: set<FileKey>, numCommitted: nat)
  {
    && now == FlushModels(start, order, txs) && |order| == numCommitted
    && (forall i, j :: 0 <= i < j < |order| ==> order[i] != order[j])
    && (forall k :: k in start && start[k].dirty <==> k in order || k in left)
    && (forall k :: k in left ==> k !in order && Lookup(now, k) == Lookup(start, k))
    && (forall i :: 0 <= i < |order| ==> txs(order[i]).commits && txs(order[i]).ctxLive)
  }

  lemma FlushStart(start: Models, left: set<FileKey>, txs: FileKey -> TxOutcome)
    requires forall k :: k in left <==> k in start && start[k].dirty
    ensures FlushProgress(start, start, [], txs, left, 0)
  {
  }

  lemma FlushEnd(start: Models, now: Models, order: seq<FileKey>, txs: FileKey -> TxOutcome, numCommitted: nat)
    requires FlushProgress(start, now, order, txs, {}, numCommitted)
    ensures FlushedInOrder(start, now, order, txs, numCommitted, None)
  {
  }

  lemma FlushNext(start: Models, now: Models, next: Models, order: seq<FileKey>, txs: FileKey -> TxOutcome,
                  left: set<FileKey>, numCommitted: nat, key: FileKey, err: Option<Error>)
    requires FlushProgress(start, now, order, txs, left, numCommitted) && key in left
    requires next == Update(now, key, FlushLookup(Lookup(now, key), txs(key)))
    requires err.None? <==> key !in now || !now[key].dirty || (txs(key).commits && txs(key).ctxLive)
    ensures forall e :: FlushedInOrder(start, next, order + [key], txs, numCommitted, Some(e))
    ensures err.None? && txs(key).ctxLive ==>
              FlushProgress(start, next, order + [key], txs, left - {key}, numCommitted + 1)
  {
    FlushModelsExtend(start, order, key, txs);
    assert start[key].dirty && Lookup(now, key) == Some(start[key]);
  }

  ghost function StateOf(e: CacheEntry): (int, Option<WaveFile>, DirtyParts, nat)
    reads e
  {
    (e.pinCount, e.file, e.dataEntries, e.flushErrors)
  }

  class FileStore {
    const db: Database
    var cache: map<FileKey, CacheEntry>
    var isFlushing: bool
    ghost var model: Models

    /** The store invariant while the entries in `pinned` are held by a running operation. */
    ghost predicate Inv(pinned: set<FileKey>)
      reads this, db, cache.Values
    {
      && pinned <= cache.Keys
      && (forall k :: k in cache ==>
            && cache[k].key == k
            && cache[k].pinCount == (if k in pinned then 1 else 0)
            && (cache[k].file.Some? || k in pinned)
            && Tracks(cache[k], db, Lookup(model, k)))
      && (forall k :: k !in cache ==> Clean(db, k, Lookup(model, k)))
    }

    ghost predicate Valid()
      reads this, db, cache.Values
    {
      Inv({}) && !isFlushing
    }

    constructor (db: Database)
      requires db.files == map[] && forall k :: PartsFit(db.PartsOf(k))
      ensures Valid() && this.db == db && cache == map[] && model == map[]
    {
      this.db := db;
      cache, isFlushing, model := map[], false, map[];
    }

    // ----- pinning -----

    /** The entry has the parts that the cache had for the key. */
    twostate predicate KeepsParts(key: FileKey, new entry: CacheEntry)
      reads entry
    {
      entry.dataEntries == if key in old(cache) then old(cache[key].dataEntries) else map[]
    }

    method GetEntryAndPin(key: FileKey) returns (entry: CacheEntry)
      requires Inv({})
      modifies this`cache, cache.Values
      ensures Inv({key}) && entry == cache[key]
      ensures KeepsParts(key, entry)
      ensures fresh(cache.Values - old(cache.Values))
    {
      hide Represents;
      if key !in cache {
        entry := new CacheEntry(key);
        cache := cache[key := entry];
      } else {
        entry := cache[key];
      }
      entry.pinCount := entry.pinCount + 1;
    }

    method UnpinEntryAndTryDelete(key: FileKey)
      requires Inv({key})
      modifies this`cache, cache.Values
      ensures Inv({})
      ensures cache.Values <= old(cache.Values)
    {
      if key !in cache {
        return;
      }
      var entry := cache[key];
      entry.pinCount := entry.pinCount - 1;
      if entry.pinCount <= 0 && entry.file.None? {
        cache := cache - {key};
      }
    }

    /** A body has run under the pinned entry: put its file back among the others. */
    twostate lemma Frame(new key: FileKey, new entry: CacheEntry, new after: Option<FileModel>)
      requires old(Inv({key})) && old(cache[key]) == entry
      requires cache == old(cache) && model == Update(old(model), key, after)
      requires forall k :: k in cache && k != key ==> StateOf(cache[k]) == old(StateOf(cache[k]))
      requires entry.pinCount == old(entry.pinCount) && Tracks(entry, db, after) && OthersSame(db, key)
      ensures Inv({key})
    {
      forall k | k in cache
        ensures Tracks(cache[k], db, Lookup(model, k))
      {
        assert old(Tracks(cache[k], db, Lookup(model, k)));
        assert k != key ==> RowsOf(db, k) == old(RowsOf(db, k));
      }
      forall k | k !in cache
        ensures Clean(db, k, Lookup(model, k))
      {
        assert old(Clean(db, k, Lookup(model, k)));
        assert RowsOf(db, k) == old(RowsOf(db, k));
      }
    }

    // ----- operations -----

    method MakeFile(key: FileKey, opts: FileOpts, tx: TxOutcome) returns (err: Option<Error>)
      requires Valid()
      modifies this`cache, this`model, cache.Values, db
      ensures Valid()
      ensures fresh(cache.Values - old(cache.Values))
      ensures err.None? <==> OptsAccepted(opts) && key !in old(model) && tx.commits
      ensures err.None? ==> model == old(model)[key := FileModel(RoundedOpts(opts), [], [], false, 0)]
      ensures err.None? ==>
                var stored := model[key].opts;
                && stored == opts.(maxSize := stored.maxSize)
                && (!opts.circular ==> stored.maxSize == opts.maxSize)
                && (opts.circular ==>
                      stored.maxSize % PART_SIZE == 0 && opts.maxSize <= stored.maxSize < opts.maxSize + PART_SIZE)
      ensures err.Some? ==> model == old(model)
      ensures !OptsAccepted(opts) <==> err == Some(ErrInvalidOpts)
      ensures OptsAccepted(opts) && key in old(model) ==> err == Some(ErrExist)
    {
      var stored := CheckOpts(opts);
      if stored.None? {
        return Some(ErrInvalidOpts);
      }
      err := Insert(key, stored.value, tx);
    }

    method Insert(key: FileKey, stored: FileOpts, tx: TxOutcome) returns (err: Option<Error>)
      requires Valid()
      requires stored.Valid()
      modifies this`cache, this`model, cache.Values, db
      ensures Valid()
      ensures fresh(cache.Values - old(cache.Values))
      ensures key in old(model) ==> err == Some(ErrExist)
      ensures key !in old(model) ==> err == if tx.commits then None else Some(ErrDb)
      ensures model == if err.None? then old(model)[key := FileModel(stored, [], [], false, 0)] else old(model)
    {
      hide KeepsParts, Tracks, Clean;
      var entry := GetEntryAndPin(key);
      ghost var m := Lookup(model, key);
      label L:
      err := InsertBody(entry, db, stored, tx, m);
      ghost var after := if err.None? then Some(FileModel(stored, [], [], false, 0)) else m;
      model := Update(model, key, after);
      Frame@L(key, entry, after);
      UnpinEntryAndTryDelete(key);
    }

    method DeleteFile(key: FileKey, tx: TxOutcome) returns (err: Option<Error>)
      requires Valid()
      modifies this`cache, this`model, cache.Values, db
      ensures Valid()
      ensures fresh(cache.Values - old(cache.Values))
      ensures err.None? <==> tx.commits
      ensures model == if tx.commits then old(model) - {key} else old(model)
    {
      hide KeepsParts, Tracks, Clean;
      var entry := GetEntryAndPin(key);
      ghost var m := Lookup(model, key);
      label L:
      err := DeleteBody(entry, db, tx, m);
      ghost var after := if tx.commits then None else m;
      model := Update(model, key, after);
      Frame@L(key, entry, after);
      UnpinEntryAndTryDelete(key);
    }

    /** Replaces the contents and flushes at once. A failed flush leaves the new contents in the
        cache, or, as the fourth failure in a row, drops them. */
    method WriteFile(key: FileKey, data: seq<byte>, io: IO) returns (err: Option<Error>)
      requires Valid()
      modifies this`cache, this`model, cache.Values, db
      ensures Valid()
      ensures fresh(cache.Values - old(cache.Values))
      ensures model == Update(old(model), key, WriteFileModel(Lookup(old(model), key), data, io))
      ensures err.None? <==> !Unloadable(Lookup(old(model), key), io) && io.tx.commits && io.tx.ctxLive
    {
      hide KeepsParts, Tracks, Clean;
      var entry := GetEntryAndPin(key);
      ghost var m := Lookup(model, key);
      label L:
      err := WriteFileBody(entry, db, data, io, m);
      model := Update(model, key, WriteFileModel(m, data, io));
      Frame@L(key, entry, WriteFileModel(m, data, io));
      UnpinEntryAndTryDelete(key);
    }

    /** The cache holds the part that the file ends in. */
    ghost predicate TailCached(key: FileKey)
      reads this, cache.Values
    {
      && key in model && model[key].opts.Valid()
      && key in cache && TailOf(model[key]) in cache[key].dataEntries
    }

    /** For `cached`, see WriteAtLog: it only matters in the LosesTail family. */
    method WriteAt(key: FileKey, offset: int, data: seq<byte>, io: IO) returns (err: Option<Error>, ghost cached: bool)
      requires Valid()
      modifies this`cache, this`model, cache.Values
      ensures Valid()
      ensures fresh(cache.Values - old(cache.Values))
      ensures model == Update(old(model), key, Lookup(model, key))
      ensures offset < 0 ==> err == Some(ErrNegativeOffset)
      ensures WroteAt(Lookup(old(model), key), offset, data, io, err, Lookup(model, key), cached)
      ensures err.None? ==> cached == old(TailCached(key))
    {
      if offset < 0 {
        return Some(ErrNegativeOffset), false;
      }
      err, cached := WriteAtLocked(key, offset, data, io);
    }

    method WriteAtLocked(key: FileKey, offset: nat, data: seq<byte>, io: IO)
      returns (err: Option<Error>, ghost cached: bool)
      requires Valid()
      modifies this`cache, this`model, cache.Values
      ensures Valid()
      ensures fresh(cache.Values - old(cache.Values))
      ensures model == Update(old(model), key, Lookup(model, key))
      ensures WroteAt(Lookup(old(model), key), offset, data, io, err, Lookup(model, key), cached)
      ensures err.None? ==> cached == old(TailCached(key))
    {
      hide Tracks, Clean, WroteAt;
      OnlyDirtyCached(key);
      var entry := GetEntryAndPin(key);
      ghost var m := Lookup(model, key);
      label L:
      ghost var after;
      err, after, cached := WriteAtBody(entry, db, offset, data, io, m);
      model := Update(model, key, after);
      Frame@L(key, entry, after);
      UnpinEntryAndTryDelete(key);
      if err.None? && cached {
        WroteDirty(m, offset, data, io, err, after, cached);
      }
    }

    lemma OnlyDirtyCached(key: FileKey)
      requires Valid()
      ensures key in cache <==> key in model && model[key].dirty
    {
    }

    method AppendData(key: FileKey, data: seq<byte>, io: IO) returns (err: Option<Error>)
      requires Valid()
      modifies this`cache, this`model, cache.Values
      ensures Valid()
      ensures fresh(cache.Values - old(cache.Values))
      ensures model == Update(old(model), key, Lookup(model, key))
      ensures Appended(Lookup(old(model), key), data, io, err, Lookup(model, key))
    {
      hide KeepsParts, Tracks, Clean, Appended;
      var entry := GetEntryAndPin(key);
      ghost var m := Lookup(model, key);
      label L:
      ghost var after;
      err, after := AppendBody(entry, db, data, io, m);
      model := Update(model, key, after);
      Frame@L(key, entry, after);
      UnpinEntryAndTryDelete(key);
    }

    method AppendIJson(key: FileKey, command: seq<byte>, compactNow: bool, compactor: seq<byte> -> Option<seq<byte>>,
                       io: IO)
      returns (err: Option<Error>)
      requires Valid()
      modifies this`cache, this`model, cache.Values
      ensures Valid()
      ensures fresh(cache.Values - old(cache.Values))
      ensures model == Update(old(model), key, Lookup(model, key))
      ensures IJsonAppended(Lookup(old(model), key), command, compactNow, compactor, io, err, Lookup(model, key))
    {
      hide KeepsParts, Tracks, Clean, IJsonAppended;
      var entry := GetEntryAndPin(key);
      ghost var m := Lookup(model, key);
      label L:
      ghost var after;
      err, after := AppendIJsonBody(entry, db, command, compactNow, compactor, io, m);
      model := Update(model, key, after);
      Frame@L(key, entry, after);
      UnpinEntryAndTryDelete(key);
    }

    method CompactIJson(key: FileKey, compactor: seq<byte> -> Option<seq<byte>>, io: IO) returns (err: Option<Error>)
      requires Valid()
      modifies this`cache, this`model, cache.Values
      ensures Valid()
      ensures fresh(cache.Values - old(cache.Values))
      ensures model == Update(old(model), key, Lookup(model, key))
      ensures CompactedTo(Lookup(old(model), key), compactor, io, err, Lookup(model, key))
    {
      hide KeepsParts, Tracks, Clean, CompactedTo;
      var entry := GetEntryAndPin(key);
      ghost var m := Lookup(model, key);
      label L:
      ghost var after;
      err, after := CompactIJsonBody(entry, db, compactor, io, m);
      model := Update(model, key, after);
      Frame@L(key, entry, after);
      UnpinEntryAndTryDelete(key);
    }

    /** ReadAt, and ReadFile when `readFull` is set. */
    method ReadAt(key: FileKey, offset: int, size: int, readFull: bool, io: IO) returns (r: ReadResult)
      requires Valid()
      modifies this`cache, cache.Values
      ensures Valid() && model == old(model)
      ensures fresh(cache.Values - old(cache.Values))
      ensures ReadOk(Lookup(model, key), offset, size, readFull, io, r)
    {
      hide KeepsParts, Tracks, Clean, ReadOk;
      var entry := GetEntryAndPin(key);
      r := Read(entry, db, offset, size, readFull, io, Lookup(model, key));
      UnpinEntryAndTryDelete(key);
    }

    /** One turn of FlushCache. */
    method FlushKey(key: FileKey, tx: TxOutcome) returns (err: Option<Error>)
      requires Inv({})
      modifies this`cache, this`model, cache.Values, db
      ensures Inv({}) && cache.Values <= old(cache.Values) + cache.Values
      ensures fresh(cache.Values - old(cache.Values))
      ensures model == Update(old(model), key, FlushLookup(Lookup(old(model), key), tx))
      ensures err.None? <==> key !in old(model) || !old(model)[key].dirty || (tx.commits && tx.ctxLive)
    {
      hide KeepsParts, Tracks, Clean;
      var entry := GetEntryAndPin(key);
      ghost var m := Lookup(model, key);
      label L:
      err := Flush(entry, db, false, tx, m);
      model := Update(model, key, FlushLookup(m, tx));
      Frame@L(key, entry, FlushLookup(m, tx));
      UnpinEntryAndTryDelete(key);
    }

    /** FlushCache: every dirty file once, in an order the map iteration leaves open, stopping at the
        first that fails or whose context has died. */
    method FlushCache(txs: FileKey -> TxOutcome)
      returns (numCommitted: nat, err: Option<Error>, ghost order: seq<FileKey>)
      requires Valid()
      modifies this`cache, this`isFlushing, this`model, cache.Values, db
      ensures Valid()
      ensures fresh(cache.Values - old(cache.Values))
      ensures FlushedInOrder(old(model), model, order, txs, numCommitted, err)
    {
      isFlushing := true;
      numCommitted, err, order := FlushDirty(txs);
      isFlushing := false;
    }

    /** The loop of FlushCache. */
    method FlushDirty(txs: FileKey -> TxOutcome)
      returns (numCommitted: nat, err: Option<Error>, ghost order: seq<FileKey>)
      requires Inv({})
      modifies this`cache, this`model, cache.Values, db
      ensures Inv({}) && fresh(cache.Values - old(cache.Values))
      ensures FlushedInOrder(old(model), model, order, txs, numCommitted, err)
    {
      hide Inv, FlushProgress, FlushedInOrder, FlushLookup;
      DirtyKeys();
      var left := cache.Keys;
      ghost var start := model;
      numCommitted, err, order := 0, None, [];
      FlushStart(start, left, txs);
      while |left| > 0
        invariant Inv({}) && fresh(cache.Values - old(cache.Values))
        invariant err.None? && FlushProgress(start, model, order, txs, left, numCommitted)
        decreases |left|
      {
        var key := Pick(left);
        ghost var before := model;
        err := FlushKey(key, txs(key));
        FlushNext(start, before, model, order, txs, left, numCommitted, key, err);
        order := order + [key];
        if !txs(key).ctxLive {
          err := Some(ErrCtx);
          return;
        }
        if err.Some? {
          return;
        }
        numCommitted := numCommitted + 1;
        left := left - {key};
      }
      FlushEnd(start, model, order, txs, numCommitted);
    }

    lemma DirtyKeys()
      requires Inv({})
      ensures forall k :: k in cache <==> k in model && model[k].dirty
    {
    }
  }
}
