/** Newline framing of RPC messages over a byte stream that arrives in arbitrary pieces. */
module LineFraming {
  import opened Basics
  import opened OscCodec

  const NL: byte := 10
  const MAX_LINE_LENGTH := 128 * 1024

  // ----- what framing means, on the whole stream at once -----

  /** bytes.IndexByte(s, '\n') */
  function IndexNL(s: Bytes): (i: int)
    ensures -1 <= i < |s|
    ensures i == -1 ==> NL !in s
    ensures i >= 0 ==> s[i] == NL && NL !in s[..i]
    decreases |s|
  {
    if s == [] then -1
    else if s[0] == NL then 0
    else
      var i := IndexNL(s[1..]);
      assert s == [s[0]] + s[1..];
      assert i >= 0 ==> s[..i + 1] == [s[0]] + s[1..][..i];
      if i == -1 then -1 else i + 1
  }

  /** The lines that a newline has ended. */
  function Lines(s: Bytes): seq<Bytes>
    decreases |s|
  {
    var i := IndexNL(s);
    if i == -1 then [] else [s[..i]] + Lines(s[i + 1..])
  }

  /** What follows the last newline. */
  function Tail(s: Bytes): Bytes
    decreases |s|
  {
    var i := IndexNL(s);
    if i == -1 then s else Tail(s[i + 1..])
  }

  /** The lines that are not too long. */
  function Fitting(lines: seq<Bytes>): seq<Bytes>
    decreases |lines|
  {
    if lines == [] then []
    else (if |lines[0]| <= MAX_LINE_LENGTH then [lines[0]] else []) + Fitting(lines[1..])
  }

  /** The first newline splits off the first line. */
  lemma FirstLine(s: Bytes)
    ensures
      var i := IndexNL(s);
      if i == -1 then Lines(s) == [] && Tail(s) == s
      else Lines(s) == [s[..i]] + Lines(s[i + 1..]) && Tail(s) == Tail(s[i + 1..])
  {
  }

  lemma IndexUnique(s: Bytes, i: nat)
    requires i < |s| && s[i] == NL && NL !in s[..i]
    ensures IndexNL(s) == i
  {
    var j := IndexNL(s);
    NotBefore(s, i);
    if j >= 0 {
      NotBefore(s, j);
    }
  }

  lemma NotBefore(s: Bytes, i: nat)
    requires i <= |s| && NL !in s[..i]
    ensures forall k :: 0 <= k < i ==> s[k] != NL
  {
    forall k | 0 <= k < i
      ensures s[k] != NL
    {
      assert s[..i][k] == s[k];
    }
  }

  /** Feeding more bytes only continues the open line. */
  lemma {:induction false} LinesContinue(a: Bytes, b: Bytes)
    ensures Lines(a + b) == Lines(a) + Lines(Tail(a) + b)
    ensures Tail(a + b) == Tail(Tail(a) + b)
    decreases |a|
  {
    hide Lines, Tail, IndexNL;
    FirstLine(a);
    FirstLine(a + b);
    var i := IndexNL(a);
    if i >= 0 {
      assert (a + b)[..i] == a[..i];
      IndexUnique(a + b, i);
      assert (a + b)[i + 1..] == a[i + 1..] + b;
      LinesContinue(a[i + 1..], b);
      assert [a[..i]] + Lines(a[i + 1..]) + Lines(Tail(a) + b) == Lines(a) + Lines(Tail(a) + b);
    }
  }

  lemma {:induction false} TailHasNoNL(s: Bytes)
    ensures NL !in Tail(s)
    decreases |s|
  {
    var i := IndexNL(s);
    if i >= 0 {
      TailHasNoNL(s[i + 1..]);
    }
  }

  lemma {:induction false} FittingAppend(a: seq<Bytes>, b: seq<Bytes>)
    ensures Fitting(a + b) == Fitting(a) + Fitting(b)
    decreases |a|
  {
    if a == [] {
      assert a + b == b;
    } else {
      assert (a + b)[1..] == a[1..] + b;
      FittingAppend(a[1..], b);
    }
  }

  lemma FittingOne(lines: seq<Bytes>, line: Bytes)
    ensures Fitting(lines + [line]) == Fitting(lines) + if |line| <= MAX_LINE_LENGTH then [line] else []
  {
    FittingAppend(lines, [line]);
  }

  /** A piece without newline extends the open line. */
  lemma NoNewline(s: Bytes, piece: Bytes)
    requires NL !in piece
    ensures Lines(s + piece) == Lines(s) && Tail(s + piece) == Tail(s) + piece
  {
    LinesContinue(s, piece);
    TailHasNoNL(s);
    assert NL !in Tail(s) + piece;
    assert Lines(s) + [] == Lines(s);
  }

  /** A piece up to its first newline ends the open line. */
  lemma OneNewline(s: Bytes, piece: Bytes)
    requires NL !in piece
    ensures Lines(s + (piece + [NL])) == Lines(s) + [Tail(s) + piece] && Tail(s + (piece + [NL])) == []
  {
    hide Lines, Tail;
    LinesContinue(s, piece + [NL]);
    TailHasNoNL(s);
    assert Tail(s) + (piece + [NL]) == (Tail(s) + piece) + [NL];
    JustOneLine(Tail(s) + piece);
  }

  lemma JustOneLine(line: Bytes)
    requires NL !in line
    ensures Lines(line + [NL]) == [line] && Tail(line + [NL]) == []
  {
    assert (line + [NL])[..|line|] == line;
    IndexUnique(line + [NL], |line|);
    assert (line + [NL])[|line| + 1..] == [];
  }

  // ----- the imperative form -----

  class LineBuf {
    var buf: Bytes
    var inLongLine: bool
    var delivered: seq<Bytes>   // what lineFn has been called with
    ghost var consumed: Bytes

    /** Delivered are exactly the fitting lines of the stream so far; the buffer holds the open line
        unless that is too long already. */
    ghost predicate Valid()
      reads this
    {
      && delivered == Fitting(Lines(consumed))
      && (inLongLine <==> |Tail(consumed)| > MAX_LINE_LENGTH)
      && buf == if inLongLine then [] else Tail(consumed)
    }

    constructor ()
      ensures Valid() && consumed == []
    {
      buf, inLongLine, delivered, consumed := [], false, [], [];
    }

    /** streamToLines_processBuf */
    method ProcessBuf(readBuf: Bytes)
      requires Valid()
      modifies this
      ensures Valid() && consumed == old(consumed) + readBuf
    {
      hide Lines, Tail, Fitting, IndexNL;
      var readBuf := readBuf;
      ghost var all := consumed + readBuf;
      while |readBuf| > 0
        invariant Valid() && consumed + readBuf == all
        decreases |readBuf|
      {
        var nlIdx := IndexNL(readBuf);
        if nlIdx == -1 {
          NoNewline(consumed, readBuf);
          consumed := consumed + readBuf;
          if inLongLine || |buf| + |readBuf| > MAX_LINE_LENGTH {
            buf := [];
            inLongLine := true;
            return;
          }
          buf := buf + readBuf;
          return;
        }
        OneNewline(consumed, readBuf[..nlIdx]);
        FittingOne(Lines(consumed), Tail(consumed) + readBuf[..nlIdx]);
        assert readBuf == (readBuf[..nlIdx] + [NL]) + readBuf[nlIdx + 1..];
        if !inLongLine && |buf| + nlIdx <= MAX_LINE_LENGTH {
          var line := buf + readBuf[..nlIdx];
          delivered := delivered + [line];
        }
        consumed := consumed + (readBuf[..nlIdx] + [NL]);
        buf := [];
        inLongLine := false;
        readBuf := readBuf[nlIdx + 1..];
      }
    }

    /** StreamToLines over any sequence of reads: only the concatenation matters. */
    method StreamToLines(reads_: seq<Bytes>)
      requires Valid() && consumed == []
      modifies this
      ensures Valid() && consumed == ConcatAll(reads_)
      ensures delivered == Fitting(Lines(ConcatAll(reads_)))
    {
      for i := 0 to |reads_|
        invariant Valid() && consumed == ConcatAll(reads_[..i])
      {
        ProcessBuf(reads_[i]);
        assert reads_[..i + 1][..i] == reads_[..i];
      }
      assert reads_[..|reads_|] == reads_;
    }
  }

  function ConcatAll(chunks: seq<Bytes>): Bytes
    decreases |chunks|
  {
    if chunks == [] then [] else ConcatAll(chunks[..|chunks| - 1]) + chunks[|chunks| - 1]
  }

  // ----- round trip with the writer -----

  function Written(msgs: seq<Bytes>): Bytes
    decreases |msgs|
  {
    if msgs == [] then [] else Written(msgs[..|msgs| - 1]) + (msgs[|msgs| - 1] + [NL])
  }

  /** AdaptOutputChToStream: each message, then a newline. */
  method WriteMessages(outputCh: seq<Bytes>) returns (output: Bytes)
    ensures output == Written(outputCh)
  {
    output := [];
    for i := 0 to |outputCh|
      invariant output == Written(outputCh[..i])
    {
      assert outputCh[..i + 1][..i] == outputCh[..i];
      output := output + outputCh[i];
      output := output + [NL];
      assert Written(outputCh[..i]) + outputCh[i] + [NL] == Written(outputCh[..i]) + (outputCh[i] + [NL]);
    }
    assert outputCh[..|outputCh|] == outputCh;
  }

  lemma {:induction false} WrittenLines(msgs: seq<Bytes>)
    requires forall i :: 0 <= i < |msgs| ==> NL !in msgs[i]
    ensures Lines(Written(msgs)) == msgs && Tail(Written(msgs)) == []
    decreases |msgs|
  {
    if msgs != [] {
      var n := |msgs| - 1;
      WrittenLines(msgs[..n]);
      OneNewline(Written(msgs[..n]), msgs[n]);
      assert [] + msgs[n] == msgs[n];
      assert msgs == msgs[..n] + [msgs[n]];
    }
  }

  lemma {:induction false} FittingAll(lines: seq<Bytes>)
    requires forall i :: 0 <= i < |lines| ==> |lines[i]| <= MAX_LINE_LENGTH
    ensures Fitting(lines) == lines
    decreases |lines|
  {
    if lines != [] {
      FittingAll(lines[1..]);
    }
  }

  lemma {:induction false} LinesAreLines(s: Bytes, line: Bytes)
    requires line in Lines(s)
    ensures NL !in line
    decreases |s|
  {
    hide Lines, Tail, IndexNL;
    FirstLine(s);
    var i := IndexNL(s);
    if line != s[..i] {
      LinesAreLines(s[i + 1..], line);
    }
  }

  lemma {:induction false} FittingFits(lines: seq<Bytes>, line: Bytes)
    requires line in Fitting(lines)
    ensures line in lines && |line| <= MAX_LINE_LENGTH
    decreases |lines|
  {
    if line !in Fitting(lines[1..]) {
      assert line == lines[0];
    } else {
      FittingFits(lines[1..], line);
    }
  }

  /** Messages come back unchanged exactly when none contains a newline or is too long. */
  lemma RoundTripIff(msgs: seq<Bytes>)
    ensures Fitting(Lines(Written(msgs))) == msgs <==>
            forall i :: 0 <= i < |msgs| ==> NL !in msgs[i] && |msgs[i]| <= MAX_LINE_LENGTH
  {
    if forall i :: 0 <= i < |msgs| ==> NL !in msgs[i] && |msgs[i]| <= MAX_LINE_LENGTH {
      WrittenLines(msgs);
      FittingAll(msgs);
    }
    if Fitting(Lines(Written(msgs))) == msgs {
      forall i | 0 <= i < |msgs|
        ensures NL !in msgs[i] && |msgs[i]| <= MAX_LINE_LENGTH
      {
        FittingFits(Lines(Written(msgs)), msgs[i]);
        LinesAreLines(Written(msgs), msgs[i]);
      }
    }
  }
}
