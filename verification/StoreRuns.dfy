/** Whole runs of the block store, against plain byte logs that know no cache, parts or database. */
module StoreRuns {
  import opened Basics
  import opened WaveFiles
  import opened PartMaps
  import opened CacheEntries
  import opened FileModels
  import opened EntryOps
  import opened FileStores

  datatype Op =
    | OpMake(key: FileKey, opts: FileOpts, tx: TxOutcome)
    | OpDelete(key: FileKey, tx: TxOutcome)
    | OpWriteFile(key: FileKey, data: seq<byte>, io: IO)
    | OpWriteAt(key: FileKey, offset: int, data: seq<byte>, io: IO)
    | OpAppend(key: FileKey, data: seq<byte>, io: IO)
    | OpAppendIJson(key: FileKey, data: seq<byte>, compactNow: bool, compactor: seq<byte> -> Option<seq<byte>>, io: IO)
    | OpCompact(key: FileKey, compactor: seq<byte> -> Option<seq<byte>>, io: IO)
    | OpFlushKey(key: FileKey, tx: TxOutcome)  // one turn of FlushCache; others may come between two turns
    | OpFlush(txs: FileKey -> TxOutcome)       // all turns of one FlushCache
    | OpRead(key: FileKey, offset: int, size: int, readFull: bool, io: IO)

  datatype Result = Done(err: Option<Error>) | Got(read: ReadResult)

  /** What one operation may report and do to the models. */
  ghost predicate Step(before: Models, op: Op, r: Result, after: Models) {
    match op
    case OpMake(key, opts, tx) =>
      && r.Done?
      && (r.err.None? <==> OptsAccepted(opts) && key !in before && tx.commits)
      && after == if r.err.None? then before[key := FileModel(RoundedOpts(opts), [], [], false, 0)] else before
    case OpDelete(key, tx) =>
      r.Done? && (r.err.None? <==> tx.commits) && after == if tx.commits then before - {key} else before
    case OpWriteFile(key, data, io) =>
      && r.Done? && after == Update(before, key, WriteFileModel(Lookup(before, key), data, io))
      && (r.err.None? <==> !Unloadable(Lookup(before, key), io) && io.tx.commits && io.tx.ctxLive)
    case OpWriteAt(key, offset, data, io) =>
      && r.Done? && after == Update(before, key, Lookup(after, key))
      && exists cached :: WroteAt(Lookup(before, key), offset, data, io, r.err, Lookup(after, key), cached)
    case OpAppend(key, data, io) =>
      && r.Done? && after == Update(before, key, Lookup(after, key))
      && Appended(Lookup(before, key), data, io, r.err, Lookup(after, key))
    case OpAppendIJson(key, data, compactNow, compactor, io) =>
      && r.Done? && after == Update(before, key, Lookup(after, key))
      && IJsonAppended(Lookup(before, key), data, compactNow, compactor, io, r.err, Lookup(after, key))
    case OpCompact(key, compactor, io) =>
      && r.Done? && after == Update(before, key, Lookup(after, key))
      && CompactedTo(Lookup(before, key), compactor, io, r.err, Lookup(after, key))
    case OpFlushKey(key, tx) =>
      && r.Done? && after == Update(before, key, FlushLookup(Lookup(before, key), tx))
      && (r.err.None? <==> key !in before || !before[key].dirty || (tx.commits && tx.ctxLive))
    case OpFlush(txs) =>
      r.Done? && exists order, n :: FlushedInOrder(before, after, order, txs, n, r.err)
    case OpRead(key, offset, size, readFull, io) =>
      r.Got? && after == before && ReadOk(Lookup(before, key), offset, size, readFull, io, r.read)
  }

  method Perform(s: FileStore, op: Op) returns (r: Result)
    requires s.Valid()
    modifies s`cache, s`isFlushing, s`model, s.cache.Values, s.db
    ensures s.Valid() && fresh(s.cache.Values - old(s.cache.Values))
    ensures Step(old(s.model), op, r, s.model)
    ensures op.OpWriteAt? ==>
              WroteAt(Lookup(old(s.model), op.key), op.offset, op.data, op.io, r.err, Lookup(s.model, op.key),
                      old(s.TailCached(op.key)))
  {
    match op
    case OpMake(key, opts, tx) =>
      var err := s.MakeFile(key, opts, tx);
      r := Done(err);
    case OpDelete(key, tx) =>
      var err := s.DeleteFile(key, tx);
      r := Done(err);
    case OpWriteFile(key, data, io) =>
      var err := s.WriteFile(key, data, io);
      r := Done(err);
    case OpWriteAt(key, offset, data, io) =>
      var err, cached := s.WriteAt(key, offset, data, io);
      r := Done(err);
    case OpAppend(key, data, io) =>
      var err := s.AppendData(key, data, io);
      r := Done(err);
    case OpAppendIJson(key, data, compactNow, compactor, io) =>
      var err := s.AppendIJson(key, data, compactNow, compactor, io);
      r := Done(err);
    case OpCompact(key, compactor, io) =>
      var err := s.CompactIJson(key, compactor, io);
      r := Done(err);
    case OpFlushKey(key, tx) =>
      var err := s.FlushKey(key, tx);
      r := Done(err);
    case OpFlush(txs) =>
      var numCommitted, err, order := s.FlushCache(txs);
      r := Done(err);
    case OpRead(key, offset, size, readFull, io) =>
      var read := s.ReadAt(key, offset, size, readFull, io);
      r := Got(read);
  }

  /** A run: the models before the first operation, between operations and after the last. */
  ghost predicate IsRun(states: seq<Models>, ops: seq<Op>, results: seq<Result>) {
    && |states| == |ops| + 1 && |results| == |ops|
    && forall i :: 0 <= i < |ops| ==> Step(states[i], ops[i], results[i], states[i + 1])
  }

  /** Every sequence of operations on a valid store is such a run. */
  method Run(s: FileStore, ops: seq<Op>) returns (results: seq<Result>, ghost states: seq<Models>)
    requires s.Valid()
    modifies s`cache, s`isFlushing, s`model, s.cache.Values, s.db
    ensures s.Valid()
    ensures IsRun(states, ops, results) && states[0] == old(s.model) && states[|ops|] == s.model
  {
    hide Step;
    results := [];
    states := [s.model];
    for i := 0 to |ops|
      invariant s.Valid() && fresh(s.cache.Values - old(s.cache.Values))
      invariant |results| == i && |states| == i + 1 && states[0] == old(s.model) && states[i] == s.model
      invariant forall j :: 0 <= j < i ==> Step(states[j], ops[j], results[j], states[j + 1])
    {
      var r := Perform(s, ops[i]);
      results := results + [r];
      states := states + [s.model];
    }
  }

  // ----- plain files -----

  /** A file with no cache: its options and its bytes. */
  datatype PlainFile = PlainFile(opts: FileOpts, log: seq<byte>)

  type Plain = map<FileKey, PlainFile>

  function PlainOf(models: Models): Plain {
    map k | k in models :: PlainFile(models[k].opts, models[k].log)
  }

  /** The operation on plain files; `ok` is whether it reported success. */
  function PlainStep(p: Plain, op: Op, ok: bool): Plain {
    match op
    case OpMake(key, opts, tx) => if ok then p[key := PlainFile(RoundedOpts(opts), [])] else p
    case OpDelete(key, tx) => if ok then p - {key} else p
    case OpWriteFile(key, data, io) => if key in p then p[key := p[key].(log := data)] else p
    case OpWriteAt(key, offset, data, io) =>
      if ok && key in p && 0 <= offset <= |p[key].log| then
        p[key := p[key].(log := Overwrite(p[key].log, offset, data))]
      else p
    case OpAppend(key, data, io) => if ok && key in p then p[key := p[key].(log := p[key].log + data)] else p
    case OpAppendIJson(key, data, compactNow, compactor, io) =>
      if ok && key in p then
        var appended := AppendedIJson(p[key].log, data);
        var compacted := compactor(appended);
        var compacts := compactNow && |p[key].log| > 0 && compacted.Some?;
        p[key := p[key].(log := if compacts then compacted.value else appended)]
      else p
    case OpCompact(key, compactor, io) =>
      if ok && key in p && compactor(p[key].log).Some? then p[key := p[key].(log := compactor(p[key].log).value)] else p
    case OpFlushKey(key, tx) => p
    case OpFlush(txs) => p
    case OpRead(key, offset, size, readFull, io) => p
  }

  predicate Succeeded(r: Result) {
    r.Done? && r.err.None?
  }

  function {:tailrecursion false} PlainRun(p: Plain, ops: seq<Op>, results: seq<Result>): Plain
    requires |ops| == |results|
  {
    if ops == [] then p
    else PlainStep(PlainRun(p, ops[..|ops| - 1], results[..|ops| - 1]), ops[|ops| - 1], Succeeded(results[|ops| - 1]))
  }

  /** The fourth failed flush in a row. */
  predicate DropsData(m: FileModel, tx: TxOutcome) {
    m.dirty && !tx.commits && tx.ctxLive && m.errors >= 3
  }

  /** What the store needs so as to behave like plain files: no fourth failed flush in a row, a file row
      that WriteFile can read if it has to, no write in the LosesTail family, and no compaction after an
      append for which the parts cannot be read or the compactor fails. */
  predicate Benign(before: Models, op: Op) {
    match op
    case OpWriteFile(key, data, io) =>
      key in before ==> !Unloadable(Lookup(before, key), io) && !DropsData(before[key].(dirty := true), io.tx)
    case OpWriteAt(key, offset, data, io) =>
      key in before ==> !LosesTail(WaveFile(key, before[key].opts, |before[key].log|), offset, offset + |data|)
    case OpAppendIJson(key, data, compactNow, compactor, io) =>
      compactNow && !Unloadable(Lookup(before, key), io) && before[key].opts.ijson && before[key].log != [] ==>
        io.partsRead && compactor(AppendedIJson(before[key].log, data)).Some?
    case OpFlushKey(key, tx) => key in before ==> !DropsData(before[key], tx)
    case OpFlush(txs) => forall k :: k in before ==> !DropsData(before[k], txs(k))
    case _ => true
  }

  lemma FlushModelPlain(m: FileModel, tx: TxOutcome)
    requires !DropsData(m, tx)
    ensures FlushModel(m, tx).log == m.log && FlushModel(m, tx).opts == m.opts
  {
  }

  lemma {:induction false} FlushModelsPlain(models: Models, order: seq<FileKey>, txs: FileKey -> TxOutcome)
    requires forall i, j :: 0 <= i < j < |order| ==> order[i] != order[j]
    requires forall i :: 0 <= i < |order| ==> order[i] in models && !DropsData(models[order[i]], txs(order[i]))
    ensures PlainOf(FlushModels(models, order, txs)) == PlainOf(models)
    decreases |order|
  {
    if order != [] {
      var k := order[0];
      FlushModelPlain(models[k], txs(k));
      var next := Update(models, k, FlushLookup(Lookup(models, k), txs(k)));
      assert PlainOf(next) == PlainOf(models);
      forall i | 0 <= i < |order[1..]|
        ensures order[1..][i] in next && !DropsData(next[order[1..][i]], txs(order[1..][i]))
      {
        assert order[1..][i] == order[i + 1] != k;
      }
      FlushModelsPlain(next, order[1..], txs);
    }
  }

  /** One benign step does to the plain files what the plain operation does. */
  lemma StepIsPlain(before: Models, op: Op, r: Result, after: Models)
    requires Step(before, op, r, after) && Benign(before, op)
    ensures PlainOf(after) == PlainStep(PlainOf(before), op, Succeeded(r))
  {
    match op
    case OpWriteFile(key, data, io) =>
      if key in before {
        FlushModelPlain(before[key].(log := data, dirty := true), io.tx);
      }
    case OpFlushKey(key, tx) =>
      if key in before {
        FlushModelPlain(before[key], tx);
      }
    case OpFlush(txs) =>
      var order, n :| FlushedInOrder(before, after, order, txs, n, r.err);
      FlushModelsPlain(before, order, txs);
    case OpWriteAt(key, offset, data, io) =>
      var cached :| WroteAt(Lookup(before, key), offset, data, io, r.err, Lookup(after, key), cached);
    case OpAppend(_, _, _) => AppendIsPlainStep(before, op, r, after);
    case OpAppendIJson(_, _, _, _, _) => AppendIsPlainStep(before, op, r, after);
    case OpCompact(_, _, _) => AppendIsPlainStep(before, op, r, after);
    case _ =>
  }

  lemma AppendIsPlainStep(before: Models, op: Op, r: Result, after: Models)
    requires (op.OpAppend? || op.OpAppendIJson? || op.OpCompact?) && Step(before, op, r, after) && Benign(before, op)
    ensures PlainOf(after) == PlainStep(PlainOf(before), op, Succeeded(r))
  {
    hide AppendedIJson, Overwrite;
  }

  /** What a read of a plain file returns: from the offset, or the live start if that is later, to the
      end of the range or of the file. A range that ends before it starts makes Go panic. */
  function PlainRead(p: PlainFile, offset: nat, size: int, readFull: bool): ReadResult {
    var start := Max(offset, LiveStart(p.opts, p.log));
    var end := if readFull then |p.log| else Min(offset + size, |p.log|);
    if end < start then Panic else Data(start, p.log[start..end])
  }

  lemma ReadModelIsPlain(m: FileModel, offset: nat, size: int, readFull: bool)
    requires m.opts.Valid()
    ensures ReadModel(m, offset, size, readFull) == PlainRead(PlainFile(m.opts, m.log), offset, size, readFull)
  {
  }

  /** The store refines plain files: after any benign run, the contents are those of the same
      operations on plain byte logs. */
  lemma {:induction false} RunIsPlain(states: seq<Models>, ops: seq<Op>, results: seq<Result>)
    requires IsRun(states, ops, results)
    requires forall i :: 0 <= i < |ops| ==> Benign(states[i], ops[i])
    ensures PlainOf(states[|ops|]) == PlainRun(PlainOf(states[0]), ops, results)
    decreases |ops|
  {
    if ops != [] {
      var n := |ops| - 1;
      assert IsRun(states[..n + 1], ops[..n], results[..n]) by {
        forall i | 0 <= i < n
          ensures Step(states[..n + 1][i], ops[..n][i], results[..n][i], states[..n + 1][i + 1])
        {
          assert Step(states[i], ops[i], results[i], states[i + 1]);
        }
      }
      RunIsPlain(states[..n + 1], ops[..n], results[..n]);
      StepIsPlain(states[n], ops[n], results[n], states[n + 1]);
    }
  }

  /** What a read reports after the plain operations, when the database answers. */
  function ExpectedRead(plain: Plain, key: FileKey, offset: int, size: int, readFull: bool): ReadResult {
    if offset < 0 then ReadErr(ErrNegativeOffset)
    else if key !in plain then ReadErr(ErrNotExist)
    else PlainRead(plain[key], offset, size, readFull)
  }

  /** Every read in the run for which the database answers returns exactly what the plain files give,
      bytes, errors and panics included. */
  lemma ReadsArePlain(states: seq<Models>, ops: seq<Op>, results: seq<Result>, i: nat)
    requires IsRun(states, ops, results) && i < |ops| && ops[i].OpRead? && ops[i].io.partsRead
    requires ops[i].io.fileRead || (ops[i].key in states[i] && states[i][ops[i].key].dirty)
    requires forall j :: 0 <= j < i ==> Benign(states[j], ops[j])
    ensures
      var op, plain := ops[i], PlainRun(PlainOf(states[0]), ops[..i], results[..i]);
      results[i] == Got(ExpectedRead(plain, op.key, op.offset, op.size, op.readFull))
  {
    assert IsRun(states[..i + 1], ops[..i], results[..i]) by {
      forall j | 0 <= j < i
        ensures Step(states[..i + 1][j], ops[..i][j], results[..i][j], states[..i + 1][j + 1])
      {
        assert Step(states[j], ops[j], results[j], states[j + 1]);
      }
    }
    RunIsPlain(states[..i + 1], ops[..i], results[..i]);
    var op := ops[i];
    assert Step(states[i], op, results[i], states[i + 1]);
    if op.offset >= 0 && op.key in states[i] && states[i][op.key].opts.Valid() {
      ReadModelIsPlain(states[i][op.key], op.offset, op.size, op.readFull);
    }
  }

  // ----- what a ring keeps -----

  const GOOD := TxOutcome(true, true)
  const GOOD_IO := IO(true, true, GOOD)

  /** The bytes of the appends that succeeded. */
  function {:tailrecursion false} Kept(chunks: seq<seq<byte>>, errs: seq<Option<Error>>): seq<byte>
    requires |errs| == |chunks|
    decreases |chunks|
  {
    if chunks == [] then []
    else
      var n := |chunks| - 1;
      Kept(chunks[..n], errs[..n]) + if errs[n].None? then chunks[n] else []
  }

  lemma NothingKept()
    ensures Kept([], []) == []
  {
  }

  lemma KeptNext(chunks: seq<seq<byte>>, errs: seq<Option<Error>>, chunk: seq<byte>, err: Option<Error>)
    requires |errs| == |chunks|
    ensures Kept(chunks + [chunk], errs + [err]) == Kept(chunks, errs) + if err.None? then chunk else []
  {
    assert (chunks + [chunk])[..|chunks|] == chunks && (errs + [err])[..|errs|] == errs;
  }

  /** A file made for maxSize bytes keeps that many, however they are cut and whichever appends fail; a
      file that is not circular keeps everything. */
  method MakeAppendRead(s: FileStore, key: FileKey, opts: FileOpts, chunks: seq<seq<byte>>, ios: seq<IO>)
    returns (err: Option<Error>, errs: seq<Option<Error>>, r: ReadResult)
    requires s.Valid() && key !in s.model && |ios| == |chunks|
    modifies s`cache, s`isFlushing, s`model, s.cache.Values, s.db
    ensures s.Valid() && |errs| == |chunks|
    ensures err.None? && (opts.circular ==> |Kept(chunks, errs)| <= opts.maxSize) ==> r == Data(0, Kept(chunks, errs))
  {
    hide FileStore.Inv, Kept, ReadModel;
    err := s.MakeFile(key, opts, GOOD);
    errs := [];
    if err.Some? {
      errs := seq(|chunks|, i => err);
      return err, errs, Panic;
    }
    ghost var stored := s.model[key].opts;
    NothingKept();
    for i := 0 to |chunks|
      invariant s.Valid() && fresh(s.cache.Values - old(s.cache.Values)) && |errs| == i
      invariant key in s.model && s.model[key].opts == stored && s.model[key].log == Kept(chunks[..i], errs)
    {
      var e := s.AppendData(key, chunks[i], ios[i]);
      KeptNext(chunks[..i], errs, chunks[i], e);
      assert chunks[..i + 1] == chunks[..i] + [chunks[i]];
      errs := errs + [e];
    }
    assert chunks[..|chunks|] == chunks;
    r := s.ReadAt(key, 0, 0, true, GOOD_IO);
    if opts.circular ==> |Kept(chunks, errs)| <= opts.maxSize {
      ReadsWhole(s.model[key]);
    }
  }

  lemma ReadsWhole(m: FileModel)
    requires m.opts.Valid() && (m.opts.circular ==> |m.log| <= m.opts.maxSize)
    ensures ReadModel(m, 0, 0, true) == Data(0, m.log)
  {
    ReadModelIsPlain(m, 0, 0, true);
    assert m.log[0..|m.log|] == m.log;
  }

  // ----- a run that loses a byte -----

  function Filled(n: nat, b: byte): seq<byte> {
    seq(n, i => b)
  }

  lemma FlushSaves(m: FileModel)
    requires m.dirty
    ensures FlushModel(m, GOOD) == m.(saved := m.log, dirty := false, errors := 0)
  {
  }

  lemma LosingLog()
    ensures
      var opts := FileOpts(PART_SIZE, true, false, 0);
      var log, data := Filled(PART_SIZE + 1, 1), Filled(PART_SIZE, 2);
      var m := FileModel(opts, WriteAtLog(opts, log, 0, data, false), log, true, 0);
      && ReadModel(m, PART_SIZE, 1, false) == Data(PART_SIZE, [0])
      && PlainRead(PlainFile(opts, Overwrite(log, 0, data)), PART_SIZE, 1, false) == Data(PART_SIZE, [1])
  {
    var opts := FileOpts(PART_SIZE, true, false, 0);
    var log, data := Filled(PART_SIZE + 1, 1), Filled(PART_SIZE, 2);
    WriteBelowWindowBlanksNewestByte(log, data);
    var after := WriteAtLog(opts, log, 0, data, false);
    assert after[PART_SIZE..PART_SIZE + 1] == [0];
    assert Overwrite(log, 0, data)[PART_SIZE..PART_SIZE + 1] == [1];
  }

  /** A one-part ring takes one byte more than it holds and is flushed; a write to offsets 0 .. PART_SIZE
      then blanks the byte at PART_SIZE, which it does not reach. A plain file would keep it. */
  method LosingRun(s: FileStore, key: FileKey) returns (r: ReadResult)
    requires s.Valid() && key !in s.model
    modifies s`cache, s`isFlushing, s`model, s.cache.Values, s.db
    ensures s.Valid() && r == Data(PART_SIZE, [0])
    ensures
      var opts := FileOpts(PART_SIZE, true, false, 0);
      PlainRead(PlainFile(opts, Overwrite(Filled(PART_SIZE + 1, 1), 0, Filled(PART_SIZE, 2))), PART_SIZE, 1, false)
      == Data(PART_SIZE, [1])
  {
    hide FileStore.Inv, FlushModel;
    var opts := FileOpts(PART_SIZE, true, false, 0);
    LosingLog();
    var err := s.MakeFile(key, opts, GOOD);
    err := s.AppendData(key, Filled(PART_SIZE + 1, 1), GOOD_IO);
    assert s.model[key] == FileModel(opts, Filled(PART_SIZE + 1, 1), [], true, 0);
    err := s.FlushKey(key, GOOD);
    assert s.model[key] == FileModel(opts, Filled(PART_SIZE + 1, 1), Filled(PART_SIZE + 1, 1), false, 0) by {
      FlushSaves(FileModel(opts, Filled(PART_SIZE + 1, 1), [], true, 0));
    }
    ghost var cached;
    err, cached := s.WriteAt(key, 0, Filled(PART_SIZE, 2), GOOD_IO);
    r := s.ReadAt(key, PART_SIZE, 1, false, GOOD_IO);
  }
}
