/** The log of path-update commands: replaying, parsing, appending and compacting it. */
module IJsonLog {
  import opened Basics
  import opened OscCodec
  import CacheEntries
  import EntryOps
  import FileModels
  import opened IJson
  import opened IJsonCommands
  import opened LineFraming

  // ----- replaying -----

  /** What a list of commands makes of data: all of them in turn, or nothing from the first error on. */
  function Replay(data: Json, cs: seq<Command>, budget: int): Outcome
    decreases |cs|
  {
    if cs == [] then Outcome(data, None)
    else
      var r := ApplyCommand(data, cs[0], budget);
      if r.Panic? then Panic
      else if r.err.Some? then Outcome(Null, r.err)
      else Replay(r.value, cs[1..], budget)
  }

  /** Replaying a list is replaying its parts one after the other. */
  lemma {:induction false} ReplayAppend(data: Json, a: seq<Command>, b: seq<Command>, budget: int)
    ensures
      var r := Replay(data, a, budget);
      Replay(data, a + b, budget) == if Succeeds(r) then Replay(r.value, b, budget) else r
    decreases |a|
  {
    if a == [] {
      assert a + b == b;
    } else {
      assert (a + b)[1..] == a[1..] + b;
      var r := ApplyCommand(data, a[0], budget);
      if Succeeds(r) {
        ReplayAppend(r.value, a[1..], b, budget);
      }
    }
  }

  /** Command by command: n of them go through, from one value to the next; then the list ends, or the
      next command fails, and nothing but its error is left, or it panics. */
  lemma {:induction false} ReplaySteps(cs: seq<Command>, budget: int, values: seq<Json>, n: nat)
    requires n <= |cs| && |values| == n + 1
    requires forall i :: 0 <= i < n ==> ApplyCommand(values[i], cs[i], budget) == Outcome(values[i + 1], None)
    ensures
      var r := Replay(values[0], cs, budget);
      if n == |cs| then r == Outcome(values[n], None)
      else
        var next := ApplyCommand(values[n], cs[n], budget);
        && (next.Panic? ==> r == Panic)
        && (next.Outcome? && next.err.Some? ==> r == Outcome(Null, next.err))
    decreases n
  {
    if n > 0 {
      hide ApplyCommand;
      assert ApplyCommand(values[0], cs[0], budget) == Outcome(values[1], None);
      ReplaySteps(cs[1..], budget, values[1..], n - 1);
    }
  }

  /** Setting the root works under every budget. */
  lemma SetRoot(data: Json, v: Json, budget: int)
    ensures Replay(data, [SetCmd([], v)], budget) == Outcome(v, None)
  {
    assert [SetCmd([], v)][1..] == [];
  }

  /** Compaction preserves replay: a log that replays to v may be replaced by "set the root to v",
      whatever commands follow and whatever they end in, a panic included. */
  lemma CompactKeepsReplay(cs: seq<Command>, more: seq<Command>, v: Json, budget: int)
    requires Replay(Null, cs, budget) == Outcome(v, None)
    ensures Replay(Null, [SetCmd([], v)] + more, budget) == Replay(Null, cs + more, budget)
  {
    ReplayAppend(Null, cs, more, budget);
    SetRoot(Null, v, budget);
    ReplayAppend(Null, [SetCmd([], v)], more, budget);
  }

  /** ApplyCommands; the panic of an index out of range ends the loop. */
  method ApplyCommands(data: Json, commands: seq<Command>, budget: int) returns (r: Outcome)
    ensures r == Replay(data, commands, budget)
  {
    var cur := data;
    for i := 0 to |commands|
      invariant Replay(cur, commands[i..], budget) == Replay(data, commands, budget)
    {
      assert commands[i..][1..] == commands[i + 1..];
      r := ApplyCommand(cur, commands[i], budget);
      if r.Panic? {
        return Panic;
      }
      if r.err.Some? {
        return Outcome(Null, r.err);
      }
      cur := r.value;
    }
    return Outcome(cur, None);
  }

  // ----- the log as bytes -----

  /** JSON encoding and decoding of commands. */
  datatype Codec = Codec(enc: Command -> Bytes, dec: Bytes -> Option<Command>)

  /** Every command that ValidateAndMarshalCommand accepts comes back as JSON leaves it, and its
      encoding is one line that is not empty. */
  ghost predicate Faithful(codec: Codec) {
    forall c: Command :: Sendable(c) ==>
                           codec.dec(codec.enc(c)) == Some(Wire(c)) && NL !in codec.enc(c) && codec.enc(c) != []
  }

  /** The pieces of a file that are decoded: its lines, and an unfinished last one unless empty. */
  function Pieces(file: Bytes): seq<Bytes> {
    Lines(file) + if Tail(file) == [] then [] else [Tail(file)]
  }

  /** The commands up to the first piece that does not decode, and whether there is none. */
  function Decoded(dec: Bytes -> Option<Command>, pieces: seq<Bytes>): (seq<Command>, bool)
    decreases |pieces|
  {
    if pieces == [] then ([], true)
    else
      match dec(pieces[0])
      case None => ([], false)
      case Some(c) =>
        var (rest, all) := Decoded(dec, pieces[1..]);
        ([c] + rest, all)
  }

  lemma NextPiece(file: Bytes)
    requires file != []
    ensures
      var i := IndexNL(file);
      Pieces(file) == if i == -1 then [file] else [file[..i]] + Pieces(file[i + 1..])
  {
    hide Lines, Tail, IndexNL;
    FirstLine(file);
  }

  lemma DecodedStep(dec: Bytes -> Option<Command>, piece: Bytes, rest: seq<Bytes>)
    ensures
      Decoded(dec, [piece] + rest) ==
      if dec(piece).None? then ([], false) else ([dec(piece).value] + Decoded(dec, rest).0, Decoded(dec, rest).1)
  {
    assert ([piece] + rest)[1..] == rest;
  }

  /** ParseIJson */
  method ParseIJson(codec: Codec, fullData: Bytes) returns (r: Option<seq<Command>>)
    ensures
      var (cs, all) := Decoded(codec.dec, Pieces(fullData));
      r == if all then Some(cs) else None
  {
    var left := fullData;
    var commands := [];
    while |left| > 0
      invariant Decoded(codec.dec, Pieces(fullData)).0 == commands + Decoded(codec.dec, Pieces(left)).0
      invariant Decoded(codec.dec, Pieces(fullData)).1 == Decoded(codec.dec, Pieces(left)).1
      decreases |left|
    {
      hide Lines, Tail, Pieces, Decoded, IndexNL;
      NextPiece(left);
      ghost var before := left;
      var nlIdx := IndexNL(left);
      var cmdData;
      if nlIdx == -1 {
        cmdData := left;
        left := [];
        EmptyFile();
      } else {
        cmdData := left[..nlIdx];
        left := left[nlIdx + 1..];
      }
      DecodedStep(codec.dec, cmdData, Pieces(left));
      var cmdMap := codec.dec(cmdData);
      if cmdMap.None? {
        return None;
      }
      assert [cmdData] + Pieces(left) == Pieces(before);
      Assoc(commands, [cmdMap.value], Decoded(codec.dec, Pieces(left)).0);
      commands := commands + [cmdMap.value];
    }
    EmptyFile();
    assert commands + [] == commands;
    return Some(commands);
  }

  lemma EmptyFile()
    ensures Pieces([]) == [] && Tail([]) == []
  {
  }

  datatype Compaction = Compacted(bytes: Bytes) | CompactFailed | CompactPanicked

  /** What compacting a file does: replay what decodes; write the value as one command. */
  function CompactionOf(codec: Codec, data: Json, pieces: seq<Bytes>, budget: int): Compaction {
    var (cs, all) := Decoded(codec.dec, pieces);
    var r := Replay(data, cs, budget);
    if r.Panic? then CompactPanicked
    else if r.err.Some? || !all then CompactFailed
    else Compacted(codec.enc(SetCmd([], r.value)))
  }

  lemma CompactionStep(codec: Codec, data: Json, pieces: seq<Bytes>, budget: int)
    requires pieces != []
    ensures
      var c := codec.dec(pieces[0]);
      CompactionOf(codec, data, pieces, budget) ==
      if c.None? then CompactFailed
      else
        var r := ApplyCommand(data, c.value, budget);
        if r.Panic? then CompactPanicked
        else if r.err.Some? then CompactFailed
        else CompactionOf(codec, r.value, pieces[1..], budget)
  {
    var c := codec.dec(pieces[0]);
    if c.Some? {
      var rest := Decoded(codec.dec, pieces[1..]).0;
      assert ([c.value] + rest)[1..] == rest;
    }
  }

  /** CompactIJson: one pass that decodes and applies. */
  method CompactIJson(codec: Codec, fullData: Bytes, budget: int) returns (r: Compaction)
    ensures r == CompactionOf(codec, Null, Pieces(fullData), budget)
  {
    var left := fullData;
    var newData := Null;
    while |left| > 0
      invariant CompactionOf(codec, newData, Pieces(left), budget)
             == CompactionOf(codec, Null, Pieces(fullData), budget)
      decreases |left|
    {
      hide Lines, Tail, Pieces;
      NextPiece(left);
      ghost var before := left;
      var nlIdx := IndexNL(left);
      var cmdData;
      if nlIdx == -1 {
        cmdData := left;
        left := [];
        EmptyFile();
      } else {
        cmdData := left[..nlIdx];
        left := left[nlIdx + 1..];
      }
      assert [cmdData] + Pieces(left) == Pieces(before);
      assert ([cmdData] + Pieces(left))[1..] == Pieces(left);
      CompactionStep(codec, newData, Pieces(before), budget);
      var cmdMap := codec.dec(cmdData);
      if cmdMap.None? {
        return CompactFailed;
      }
      var applied := ApplyCommand(newData, cmdMap.value, budget);
      if applied.Panic? {
        return CompactPanicked;
      }
      if applied.err.Some? {
        return CompactFailed;
      }
      newData := applied.value;
    }
    EmptyFile();
    return Compacted(codec.enc(SetCmd([], newData)));
  }

  // ----- appending to the log -----

  /** Appending a line adds exactly one piece if and only if the file is empty or ends in a newline. */
  lemma AppendParsesIff(file: Bytes, line: Bytes)
    requires NL !in line
    ensures Pieces(EntryOps.AppendedIJson(file, line)) == Pieces(file) + [line] <==> Tail(file) == []
    ensures Tail(EntryOps.AppendedIJson(file, line)) == []
  {
    hide Lines, Tail;
    assert EntryOps.AppendedIJson(file, line) == file + (line + [NL]);
    OneNewline(file, line);
    assert [] + line == line;
    assert |Pieces(EntryOps.AppendedIJson(file, line))| == |Lines(file)| + 1;
  }

  lemma {:induction false} DecodedAppend(dec: Bytes -> Option<Command>, a: seq<Bytes>, b: seq<Bytes>)
    ensures
      var (as_, all) := Decoded(dec, a);
      Decoded(dec, a + b) == if all then (as_ + Decoded(dec, b).0, Decoded(dec, b).1) else (as_, false)
    decreases |a|
  {
    if a == [] {
      assert a + b == b;
      assert [] + Decoded(dec, b).0 == Decoded(dec, b).0;
    } else {
      assert (a + b)[1..] == a[1..] + b;
      DecodedAppend(dec, a[1..], b);
      if dec(a[0]).Some? {
        var c := [dec(a[0]).value];
        assert c + (Decoded(dec, a[1..]).0 + Decoded(dec, b).0) == c + Decoded(dec, a[1..]).0 + Decoded(dec, b).0;
      }
    }
  }

  /** The file after appending each command in turn, as AppendIJson does between compactions. */
  function AppendAll(codec: Codec, file: Bytes, cs: seq<Command>): Bytes
    decreases |cs|
  {
    if cs == [] then file else AppendAll(codec, EntryOps.AppendedIJson(file, codec.enc(cs[0])), cs[1..])
  }

  predicate AllSendable(cs: seq<Command>) {
    forall i :: 0 <= i < |cs| ==> Sendable(cs[i])
  }

  function WireAll(cs: seq<Command>): seq<Command>
    decreases |cs|
  {
    if cs == [] then [] else [Wire(cs[0])] + WireAll(cs[1..])
  }

  /** A file that is empty or ends in a newline parses, after any number of appends, to its old
      commands followed by the appended ones, as JSON leaves them. */
  lemma {:induction false} AppendsParse(codec: Codec, file: Bytes, cs: seq<Command>)
    requires Faithful(codec) && AllSendable(cs) && Tail(file) == []
    ensures
      var (before, all) := Decoded(codec.dec, Pieces(file));
      all ==> Decoded(codec.dec, Pieces(AppendAll(codec, file, cs))) == (before + WireAll(cs), true)
    ensures Tail(AppendAll(codec, file, cs)) == []
    decreases |cs|
  {
    hide Lines, Tail, Pieces, EntryOps.AppendedIJson;
    if cs == [] {
      var before := Decoded(codec.dec, Pieces(file)).0;
      assert before + [] == before;
    } else {
      var line := codec.enc(cs[0]);
      AppendParsesIff(file, line);
      var (before, all) := Decoded(codec.dec, Pieces(file));
      DecodedAppend(codec.dec, Pieces(file), [line]);
      DecodedOne(codec.dec, line);
      AppendsParse(codec, EntryOps.AppendedIJson(file, line), cs[1..]);
      Assoc(before, [Wire(cs[0])], WireAll(cs[1..]));
    }
  }

  lemma DecodedOne(dec: Bytes -> Option<Command>, piece: Bytes)
    ensures Decoded(dec, [piece]) == if dec(piece).Some? then ([dec(piece).value], true) else ([], false)
  {
    assert [piece][1..] == [];
    assert Decoded(dec, [piece][1..]) == ([], true);
    if dec(piece).Some? {
      assert [dec(piece).value] + [] == [dec(piece).value];
    }
  }

  /** A log that was only ever appended to compacts exactly when its commands replay without error,
      and what it compacts to parses as the one command that sets the root to their result. */
  lemma CompactionReadsBack(codec: Codec, cs: seq<Command>, budget: int)
    requires Faithful(codec) && AllSendable(cs)
    ensures
      var r := Replay(Null, WireAll(cs), budget);
      var c := CompactionOf(codec, Null, Pieces(AppendAll(codec, [], cs)), budget);
      && (c.Compacted? <==> Succeeds(r))
      && (c.CompactPanicked? <==> r.Panic?)
      && (c.Compacted? ==> Decoded(codec.dec, Pieces(c.bytes)) == ([SetCmd([], r.value)], true))
  {
    hide Lines, Tail, Pieces, AppendAll, Replay, ApplyCommand;
    EmptyFile();
    assert Decoded(codec.dec, []) == ([], true);
    AppendsParse(codec, [], cs);
    hide Decoded;
    assert [] + WireAll(cs) == WireAll(cs);
    var r := Replay(Null, WireAll(cs), budget);
    if Succeeds(r) {
      WireKeepsIff(SetCmd([], r.value));
      OnePiece(codec.enc(SetCmd([], r.value)));
      DecodedOne(codec.dec, codec.enc(SetCmd([], r.value)));
    }
  }

  /** CompactIJson as the block store uses it; a panic counts as a failure here. */
  function Compactor(codec: Codec, budget: int): Bytes -> Option<Bytes> {
    file =>
      match CompactionOf(codec, Null, Pieces(file), budget)
      case Compacted(bytes) => Some(bytes)
      case _ => None
  }

  /** AppendIJson of the block store, whether it compacts or not: a log that ends in a newline is left
      as one that still parses, and that replays to what the old commands and the new one, as JSON
      leaves it, make. */
  lemma StoreLogReplays(codec: Codec, m: FileModels.FileModel, cs: seq<Command>, c: Command, compactNow: bool,
                        budget: int, io: CacheEntries.IO, after: Option<FileModels.FileModel>)
    requires Faithful(codec) && Sendable(c)
    requires Tail(m.log) == [] && Decoded(codec.dec, Pieces(m.log)) == (cs, true) && m.opts.ijson
    requires EntryOps.IJsonAppended(Some(m), codec.enc(c), compactNow, Compactor(codec, budget), io, None, after)
    ensures
      && after.Some? && Decoded(codec.dec, Pieces(after.value.log)).1
      && var r := Replay(Null, cs + [Wire(c)], budget);
         && (compactNow && m.log != [] ==> Succeeds(r))
         && (Succeeds(r) ==> Replay(Null, Decoded(codec.dec, Pieces(after.value.log)).0, budget) == r)
  {
    hide Lines, Tail, Pieces, Decoded, EntryOps.AppendedIJson, Replay;
    var appended := EntryOps.AppendedIJson(m.log, codec.enc(c));
    AppendParsesIff(m.log, codec.enc(c));
    DecodedAppend(codec.dec, Pieces(m.log), [codec.enc(c)]);
    DecodedOne(codec.dec, codec.enc(c));
    assert Decoded(codec.dec, Pieces(appended)) == (cs + [Wire(c)], true);
    if compactNow && m.log != [] {
      var v := Replay(Null, cs + [Wire(c)], budget).value;
      WireKeepsIff(SetCmd([], v));
      OnePiece(codec.enc(SetCmd([], v)));
      DecodedOne(codec.dec, codec.enc(SetCmd([], v)));
      SetRoot(Null, v, budget);
    }
  }

  lemma OnePiece(line: Bytes)
    requires NL !in line && line != []
    ensures Lines(line) == [] && Tail(line) == line && Pieces(line) == [line]
  {
  }

  /** A compacted file has no final newline, so the next append joins its only line. A decoder that
      rejects the joined line rejects the file from then on: whatever is appended later, it neither
      parses nor compacts again. */
  lemma CompactedThenAppendIsStuck(codec: Codec, v: Json, c: Command, more: seq<Command>, budget: int)
    requires Faithful(codec) && Sendable(c) && AllSendable(more)
    requires codec.dec(codec.enc(SetCmd([], v)) + codec.enc(c)).None?
    ensures
      var file := AppendAll(codec, codec.enc(SetCmd([], v)), [c] + more);
      && Decoded(codec.dec, Pieces(file)) == ([], false)
      && CompactionOf(codec, Null, Pieces(file), budget) == CompactFailed
  {
    var root, line := codec.enc(SetCmd([], v)), codec.enc(c);
    OnePiece(root);
    OneNewline(root, line);
    var file := EntryOps.AppendedIJson(root, line);
    assert file == root + (line + [NL]);
    assert Pieces(file) == [root + line];
    DecodedOne(codec.dec, root + line);
    assert ([c] + more)[1..] == more;
    StaysStuck(codec, file, more);
  }

  lemma {:induction false} StaysStuck(codec: Codec, file: Bytes, cs: seq<Command>)
    requires Faithful(codec) && AllSendable(cs) && Tail(file) == []
    requires Decoded(codec.dec, Pieces(file)) == ([], false)
    ensures Decoded(codec.dec, Pieces(AppendAll(codec, file, cs))) == ([], false)
    decreases |cs|
  {
    hide Lines, Tail, Pieces, EntryOps.AppendedIJson;
    if cs != [] {
      var line := codec.enc(cs[0]);
      AppendParsesIff(file, line);
      DecodedAppend(codec.dec, Pieces(file), [line]);
      StaysStuck(codec, EntryOps.AppendedIJson(file, line), cs[1..]);
    }
  }
}
