/** PtyBuffer: splits a terminal byte stream into plain output and RPC messages. */
module PtyDemux {
  import opened Basics
  import opened OscCodec

  datatype Mode = Normal | Esc | WaveEsc

  /** What the splitter has consumed, piece by piece: a byte passed through, or a whole frame. */
  datatype Item = Plain(b: byte) | Frame(msg: Bytes, term: byte)

  datatype Demux = Demux(mode: Mode, escSeq: Bytes, items: seq<Item>)

  function PlainOf(items: seq<Item>): Bytes
    decreases |items|
  {
    if items == [] then []
    else
      var last := items[|items| - 1];
      PlainOf(items[..|items| - 1]) + if last.Plain? then [last.b] else []
  }

  function MessagesOf(items: seq<Item>): seq<Bytes>
    decreases |items|
  {
    if items == [] then []
    else
      var last := items[|items| - 1];
      MessagesOf(items[..|items| - 1]) + if last.Frame? then [last.msg] else []
  }

  /** The bytes that an item accounts for. */
  function Raw(prefix: Bytes, item: Item): Bytes
    requires |prefix| == OSC_PREFIX_LEN
  {
    match item
    case Plain(b) => [b]
    case Frame(msg, term) => [ESC] + prefix[1..] + msg + [term]
  }

  function RawAll(prefix: Bytes, items: seq<Item>): Bytes
    requires |prefix| == OSC_PREFIX_LEN
    decreases |items|
  {
    if items == [] then [] else RawAll(prefix, items[..|items| - 1]) + Raw(prefix, items[|items| - 1])
  }

  function Plains(bytes: Bytes): seq<Item> {
    seq(|bytes|, i requires 0 <= i < |bytes| => Plain(bytes[i]))
  }

  /** One byte of processData. */
  function Step(prefix: Bytes, d: Demux, ch: byte): Demux
    requires |prefix| == OSC_PREFIX_LEN && Sound(prefix, d)
  {
    match d.mode
    case WaveEsc =>
      if ch == ESC then Demux(Normal, [], d.items + Plains(d.escSeq + [ch]))
      else if ch == BEL || ch == ST then Demux(Normal, [], d.items + [Frame(d.escSeq[OSC_PREFIX_LEN..], ch)])
      else d.(escSeq := d.escSeq + [ch])
    case Esc =>
      if ch == ESC || ch == BEL || ch == ST || ch != prefix[|d.escSeq|] then
        Demux(Normal, [], d.items + Plains(d.escSeq + [ch]))
      else d.(escSeq := d.escSeq + [ch], mode := if |d.escSeq| + 1 == |prefix| then WaveEsc else Esc)
    case Normal =>
      if ch == ESC then Demux(Esc, [ch], d.items) else d.(items := d.items + [Plain(ch)])
  }

  /** The pending bytes are a start of a frame that fits the mode; so the prefix index is in bounds. */
  predicate Sound(prefix: Bytes, d: Demux)
    requires |prefix| == OSC_PREFIX_LEN
  {
    match d.mode
    case Normal => d.escSeq == []
    case Esc => 1 <= |d.escSeq| < OSC_PREFIX_LEN && d.escSeq == [ESC] + prefix[1..|d.escSeq|]
    case WaveEsc =>
      && |d.escSeq| >= OSC_PREFIX_LEN && d.escSeq[..OSC_PREFIX_LEN] == [ESC] + prefix[1..]
      && forall i :: OSC_PREFIX_LEN <= i < |d.escSeq| ==> d.escSeq[i] != ESC && d.escSeq[i] != BEL && d.escSeq[i] != ST
  }

  lemma StepSound(prefix: Bytes, d: Demux, ch: byte)
    requires |prefix| == OSC_PREFIX_LEN && Sound(prefix, d)
    ensures Sound(prefix, Step(prefix, d, ch))
  {
    if d.mode == Esc && ch == prefix[|d.escSeq|] {
      assert [ESC] + prefix[1..|d.escSeq|] + [ch] == [ESC] + prefix[1..|d.escSeq| + 1];
    }
  }

  function Feed(prefix: Bytes, d: Demux, data: Bytes): (r: Demux)
    requires |prefix| == OSC_PREFIX_LEN && Sound(prefix, d)
    ensures Sound(prefix, r)
    decreases |data|
  {
    if data == [] then d
    else
      var n := |data| - 1;
      var before := Feed(prefix, d, data[..n]);
      StepSound(prefix, before, data[n]);
      Step(prefix, before, data[n])
  }

  // ----- conservation and chunking -----

  lemma RawAppend(prefix: Bytes, items: seq<Item>, item: Item)
    requires |prefix| == OSC_PREFIX_LEN
    ensures RawAll(prefix, items + [item]) == RawAll(prefix, items) + Raw(prefix, item)
  {
    assert (items + [item])[..|items|] == items;
  }

  lemma {:induction false} PlainsAreRaw(prefix: Bytes, items: seq<Item>, bytes: Bytes)
    requires |prefix| == OSC_PREFIX_LEN
    ensures RawAll(prefix, items + Plains(bytes)) == RawAll(prefix, items) + bytes
    decreases |bytes|
  {
    if bytes == [] {
      assert items + Plains([]) == items;
    } else {
      hide RawAll, Plains;
      var init, last := bytes[..|bytes| - 1], bytes[|bytes| - 1];
      assert bytes == init + [last];
      PlainsSnoc(items, init, last);
      PlainsAreRaw(prefix, items, init);
      RawAppend(prefix, items + Plains(init), Plain(last));
      Assoc(RawAll(prefix, items), init, [last]);
    }
  }

  lemma {:induction false} PlainsAreOutput(items: seq<Item>, bytes: Bytes)
    ensures PlainOf(items + Plains(bytes)) == PlainOf(items) + bytes
    ensures MessagesOf(items + Plains(bytes)) == MessagesOf(items)
    decreases |bytes|
  {
    if bytes == [] {
      assert items + Plains([]) == items;
    } else {
      hide PlainOf, MessagesOf, Plains;
      var init, last := bytes[..|bytes| - 1], bytes[|bytes| - 1];
      assert bytes == init + [last];
      PlainsSnoc(items, init, last);
      PlainsAreOutput(items, init);
      OutputAppend(items + Plains(init), Plain(last));
      Assoc(PlainOf(items), init, [last]);
    }
  }

  lemma OutputAppend(items: seq<Item>, item: Item)
    ensures PlainOf(items + [item]) == PlainOf(items) + if item.Plain? then [item.b] else []
    ensures MessagesOf(items + [item]) == MessagesOf(items) + if item.Frame? then [item.msg] else []
  {
    assert (items + [item])[..|items|] == items;
  }

  lemma PlainsSnoc(items: seq<Item>, init: Bytes, last: byte)
    ensures items + Plains(init + [last]) == (items + Plains(init)) + [Plain(last)]
  {
  }

  /** The bytes that the splitter has consumed, as far as its state tells. */
  function Accounted(prefix: Bytes, d: Demux): Bytes
    requires |prefix| == OSC_PREFIX_LEN
  {
    RawAll(prefix, d.items) + d.escSeq
  }

  lemma FrameIsRaw(prefix: Bytes, escSeq: Bytes, ch: byte)
    requires |prefix| == OSC_PREFIX_LEN <= |escSeq| && escSeq[..OSC_PREFIX_LEN] == [ESC] + prefix[1..]
    ensures Raw(prefix, Frame(escSeq[OSC_PREFIX_LEN..], ch)) == escSeq + [ch]
  {
    assert escSeq == escSeq[..OSC_PREFIX_LEN] + escSeq[OSC_PREFIX_LEN..];
  }

  lemma PlainIsRaw(prefix: Bytes, ch: byte)
    requires |prefix| == OSC_PREFIX_LEN
    ensures Raw(prefix, Plain(ch)) == [ch]
  {
  }

  lemma StepConserves(prefix: Bytes, d: Demux, ch: byte)
    requires |prefix| == OSC_PREFIX_LEN && Sound(prefix, d)
    ensures Accounted(prefix, Step(prefix, d, ch)) == Accounted(prefix, d) + [ch]
  {
    hide RawAll, Plains, Raw;
    PlainsAreRaw(prefix, d.items, d.escSeq + [ch]);
    Assoc(RawAll(prefix, d.items), d.escSeq, [ch]);
    match d.mode
    case WaveEsc =>
      if ch == BEL || ch == ST {
        var frame := Frame(d.escSeq[OSC_PREFIX_LEN..], ch);
        RawAppend(prefix, d.items, frame);
        FrameIsRaw(prefix, d.escSeq, ch);
      }
    case Esc =>
    case Normal =>
      RawAppend(prefix, d.items, Plain(ch));
      PlainIsRaw(prefix, ch);
  }

  lemma FeedLast(prefix: Bytes, d: Demux, data: Bytes)
    requires |prefix| == OSC_PREFIX_LEN && Sound(prefix, d) && data != []
    ensures var n := |data| - 1; Feed(prefix, d, data) == Step(prefix, Feed(prefix, d, data[..n]), data[n])
  {
  }

  /** Nothing is lost, invented or reordered: the bytes consumed are the items' bytes, then the
      pending ones. */
  lemma {:induction false} FeedConserves(prefix: Bytes, d: Demux, data: Bytes)
    requires |prefix| == OSC_PREFIX_LEN && Sound(prefix, d)
    ensures Accounted(prefix, Feed(prefix, d, data)) == Accounted(prefix, d) + data
    decreases |data|
  {
    if data == [] {
      FeedNothing(prefix, d);
    } else {
      hide Feed, Step, Accounted, Sound;
      var n := |data| - 1;
      FeedConserves(prefix, d, data[..n]);
      FeedLast(prefix, d, data);
      StepConserves(prefix, Feed(prefix, d, data[..n]), data[n]);
      LastByte(Accounted(prefix, d), data);
    }
  }

  lemma LastByte(before: Bytes, data: Bytes)
    requires data != []
    ensures before + data[..|data| - 1] + [data[|data| - 1]] == before + data
  {
  }

  lemma FeedNothing(prefix: Bytes, d: Demux)
    requires |prefix| == OSC_PREFIX_LEN && Sound(prefix, d)
    ensures Feed(prefix, d, []) == d
  {
  }

  lemma FeedNext(prefix: Bytes, d: Demux, data: Bytes, i: nat)
    requires |prefix| == OSC_PREFIX_LEN && Sound(prefix, d) && i < |data|
    ensures Feed(prefix, d, data[..i + 1]) == Step(prefix, Feed(prefix, d, data[..i]), data[i])
    ensures Sound(prefix, Step(prefix, Feed(prefix, d, data[..i]), data[i]))
  {
    assert data[..i + 1][..i] == data[..i];
    StepSound(prefix, Feed(prefix, d, data[..i]), data[i]);
  }

  lemma {:induction false} FeedAppend(prefix: Bytes, d: Demux, a: Bytes, b: Bytes)
    requires |prefix| == OSC_PREFIX_LEN && Sound(prefix, d)
    ensures Feed(prefix, d, a + b) == Feed(prefix, Feed(prefix, d, a), b)
    decreases |b|
  {
    if b == [] {
      assert a + b == a;
    } else {
      var n := |b| - 1;
      FeedLast(prefix, d, a + b);
      FeedLast(prefix, Feed(prefix, d, a), b);
      hide Feed, Step, Sound;
      FeedAppend(prefix, d, a, b[..n]);
      assert (a + b)[..|a| + n] == a + b[..n] && (a + b)[|a| + n] == b[n];
    }
  }

  function Concat(chunks: seq<Bytes>): Bytes
    decreases |chunks|
  {
    if chunks == [] then [] else Concat(chunks[..|chunks| - 1]) + chunks[|chunks| - 1]
  }

  function FeedChunks(prefix: Bytes, d: Demux, chunks: seq<Bytes>): (r: Demux)
    requires |prefix| == OSC_PREFIX_LEN && Sound(prefix, d)
    ensures Sound(prefix, r)
    decreases |chunks|
  {
    if chunks == [] then d else Feed(prefix, FeedChunks(prefix, d, chunks[..|chunks| - 1]), chunks[|chunks| - 1])
  }

  /** How the input is cut into reads does not matter. */
  lemma {:induction false} ChunksDoNotMatter(prefix: Bytes, d: Demux, chunks: seq<Bytes>)
    requires |prefix| == OSC_PREFIX_LEN && Sound(prefix, d)
    ensures FeedChunks(prefix, d, chunks) == Feed(prefix, d, Concat(chunks))
    decreases |chunks|
  {
    if chunks != [] {
      var n := |chunks| - 1;
      ChunksDoNotMatter(prefix, d, chunks[..n]);
      FeedAppend(prefix, d, Concat(chunks[..n]), chunks[n]);
    }
  }

  /** Every frame was ended by BEL or ST, and no ESC, BEL or ST is inside its message. */
  ghost predicate CleanFrames(items: seq<Item>) {
    forall i :: 0 <= i < |items| && items[i].Frame? ==>
      && (items[i].term == BEL || items[i].term == ST)
      && ESC !in items[i].msg && BEL !in items[i].msg && ST !in items[i].msg
  }

  lemma {:induction false} FramesAreClean(prefix: Bytes, d: Demux, data: Bytes)
    requires |prefix| == OSC_PREFIX_LEN && Sound(prefix, d) && CleanFrames(d.items)
    ensures CleanFrames(Feed(prefix, d, data).items)
    decreases |data|
  {
    if data != [] {
      FramesAreClean(prefix, d, data[..|data| - 1]);
    }
  }

  // ----- the imperative form -----

  class PtyBuffer {
    const oscPrefix: Bytes
    var escMode: Mode
    var escSeqBuf: Bytes
    var dataBuf: Bytes         // everything written for the reader
    var messages: seq<Bytes>   // everything sent on the message channel
    ghost var items: seq<Item>

    ghost predicate Valid()
      reads this
    {
      && |oscPrefix| == OSC_PREFIX_LEN && Sound(oscPrefix, State())
      && dataBuf == PlainOf(items) && messages == MessagesOf(items)
    }

    ghost function State(): Demux
      reads this
    {
      Demux(escMode, escSeqBuf, items)
    }

    /** MakePtyBuffer; the source panics on a prefix of another length. */
    constructor (oscPrefix: Bytes)
      requires |oscPrefix| == OSC_PREFIX_LEN
      ensures Valid() && this.oscPrefix == oscPrefix && State() == Demux(Normal, [], [])
    {
      this.oscPrefix := oscPrefix;
      escMode, escSeqBuf, dataBuf, messages, items := Normal, [], [], [], [];
    }

    /** processData */
    method ProcessData(data: Bytes)
      requires Valid()
      modifies this
      ensures Valid() && State() == Feed(oscPrefix, old(State()), data)
    {
      hide Feed, Step, PlainOf, MessagesOf, Sound;
      var outputBuf: Bytes := [];
      FeedNothing(oscPrefix, State());
      assert data[..0] == [];
      for i := 0 to |data|
        invariant Sound(oscPrefix, State()) && State() == Feed(oscPrefix, old(State()), data[..i])
        invariant dataBuf + outputBuf == PlainOf(items) && messages == MessagesOf(items)
      {
        var ch := data[i];
        FeedNext(oscPrefix, old(State()), data, i);
        var n := ProcessByte(ch);
        outputBuf := outputBuf + n;
      }
      assert data[..|data|] == data;
      if |outputBuf| > 0 {
        dataBuf := dataBuf + outputBuf;
      }
    }

    /** The body of the loop of processData; returns what it adds to the output buffer. */
    method ProcessByte(ch: byte) returns (out: Bytes)
      requires |oscPrefix| == OSC_PREFIX_LEN && Sound(oscPrefix, State()) && messages == MessagesOf(items)
      modifies this`escMode, this`escSeqBuf, this`messages, this`items
      ensures State() == Step(oscPrefix, old(State()), ch)
      ensures PlainOf(items) == PlainOf(old(items)) + out && messages == MessagesOf(items)
    {
      PlainsAreOutput(items, escSeqBuf + [ch]);
      OutputAppend(items, Plain(ch));
      hide PlainOf, MessagesOf, Plains;
      if escMode == WaveEsc {
        if ch == ESC {
          escMode := Normal;
          out := escSeqBuf + [ch];
          items := items + Plains(escSeqBuf + [ch]);
          escSeqBuf := [];
        } else if ch == BEL || ch == ST {
          escMode := Normal;
          var waveEscSeq := escSeqBuf[OSC_PREFIX_LEN..];
          OutputAppend(items, Frame(waveEscSeq, ch));
          escSeqBuf := [];
          messages := messages + [waveEscSeq];
          items := items + [Frame(waveEscSeq, ch)];
          out := [];
        } else {
          escSeqBuf := escSeqBuf + [ch];
          out := [];
        }
        return;
      }
      if escMode == Esc {
        if ch == ESC || ch == BEL || ch == ST {
          escMode := Normal;
          out := escSeqBuf + [ch];
          items := items + Plains(escSeqBuf + [ch]);
          escSeqBuf := [];
          return;
        }
        if ch != oscPrefix[|escSeqBuf|] {
          escMode := Normal;
          out := escSeqBuf + [ch];
          items := items + Plains(escSeqBuf + [ch]);
          escSeqBuf := [];
          return;
        }
        escSeqBuf := escSeqBuf + [ch];
        if |escSeqBuf| == |oscPrefix| {
          escMode := WaveEsc;
        }
        return [];
      }
      if ch == ESC {
        escMode := Esc;
        escSeqBuf := [ch];
        return [];
      }
      items := items + [Plain(ch)];
      return [ch];
    }
  }

  // ----- round trip with the encoder -----

  datatype Segment = Text(t: Bytes) | Message(payload: Bytes)

  function WriteAll(oscNum: Bytes, segs: seq<Segment>): Bytes
    decreases |segs|
  {
    if segs == [] then []
    else WriteAll(oscNum, segs[..|segs| - 1]) + Written(oscNum, segs[|segs| - 1])
  }

  function ItemsOf(segs: seq<Segment>): seq<Item>
    decreases |segs|
  {
    if segs == [] then []
    else ItemsOf(segs[..|segs| - 1]) + Parts(segs[|segs| - 1])
  }

  predicate CleanNum(oscNum: Bytes) {
    |oscNum| == 5 && forall i :: 0 <= i < |oscNum| ==> oscNum[i] != ESC && oscNum[i] != BEL && oscNum[i] != ST
  }

  lemma {:induction false} FeedText(prefix: Bytes, items: seq<Item>, t: Bytes)
    requires |prefix| == OSC_PREFIX_LEN && ESC !in t
    ensures Feed(prefix, Demux(Normal, [], items), t) == Demux(Normal, [], items + Plains(t))
    decreases |t|
  {
    if t == [] {
      assert items + Plains(t) == items;
    } else {
      var n := |t| - 1;
      FeedText(prefix, items, t[..n]);
      assert items + Plains(t) == (items + Plains(t[..n])) + [Plain(t[n])];
    }
  }

  lemma StepPrefix(oscNum: Bytes, items: seq<Item>, n: nat)
    requires CleanNum(oscNum) && 1 <= n < OSC_PREFIX_LEN
    ensures
      var prefix := OscPrefix(oscNum);
      && Sound(prefix, Demux(Esc, prefix[..n], items))
      && Step(prefix, Demux(Esc, prefix[..n], items), prefix[n]) ==
         Demux(if n + 1 == OSC_PREFIX_LEN then WaveEsc else Esc, prefix[..n + 1], items)
  {
    var prefix := OscPrefix(oscNum);
    assert prefix[..n] == [ESC] + prefix[1..n];
    assert prefix[n] == if n == 1 then 93 else if n == 7 then 59 else oscNum[n - 2];
    assert prefix[..n + 1] == prefix[..n] + [prefix[n]];
  }

  lemma {:induction false} FeedPrefix(oscNum: Bytes, items: seq<Item>, n: nat)
    requires CleanNum(oscNum) && 1 <= n <= OSC_PREFIX_LEN
    ensures
      var prefix := OscPrefix(oscNum);
      Feed(prefix, Demux(Normal, [], items), prefix[..n]) ==
      Demux(if n == OSC_PREFIX_LEN then WaveEsc else Esc, prefix[..n], items)
    decreases n
  {
    var prefix := OscPrefix(oscNum);
    FeedLast(prefix, Demux(Normal, [], items), prefix[..n]);
    if n == 1 {
      assert prefix[..1] == [ESC];
      assert prefix[..1][..0] == [];
    } else {
      hide Feed, Step, OscPrefix, CleanNum;
      FeedPrefix(oscNum, items, n - 1);
      StepPrefix(oscNum, items, n - 1);
      assert prefix[..n][..n - 1] == prefix[..n - 1] && prefix[..n][n - 1] == prefix[n - 1];
    }
  }

  lemma {:induction false} FeedBody(prefix: Bytes, d: Demux, body: Bytes)
    requires |prefix| == OSC_PREFIX_LEN && Sound(prefix, d) && d.mode == WaveEsc
    requires ESC !in body && BEL !in body && ST !in body
    ensures Feed(prefix, d, body) == d.(escSeq := d.escSeq + body)
    decreases |body|
  {
    if body == [] {
      assert d.escSeq + body == d.escSeq;
    } else {
      var n := |body| - 1;
      FeedBody(prefix, d, body[..n]);
      assert d.escSeq + body == d.escSeq + body[..n] + [body[n]];
    }
  }

  /** One frame, up to a terminator, after any items. */
  lemma FeedFrame(oscNum: Bytes, items: seq<Item>, body: Bytes, term: byte)
    requires CleanNum(oscNum) && ESC !in body && BEL !in body && ST !in body && (term == BEL || term == ST)
    ensures Feed(OscPrefix(oscNum), Demux(Normal, [], items), OscPrefix(oscNum) + body + [term]) ==
            Demux(Normal, [], items + [Frame(body, term)])
  {
    var prefix := OscPrefix(oscNum);
    FeedPrefix(oscNum, items, OSC_PREFIX_LEN);
    assert prefix[..OSC_PREFIX_LEN] == prefix;
    FeedAppend(prefix, Demux(Normal, [], items), prefix, body);
    FeedBody(prefix, Demux(WaveEsc, prefix, items), body);
    assert (prefix + body + [term])[..|prefix + body|] == prefix + body;
    assert (prefix + body)[OSC_PREFIX_LEN..] == body;
  }

  lemma EscapedBody(payload: Bytes)
    requires ST !in payload
    ensures ESC !in Escape(payload) && BEL !in Escape(payload) && ST !in Escape(payload)
  {
    EscapeHasNoControl(payload);
  }

  function Written(oscNum: Bytes, seg: Segment): Bytes {
    if seg.Text? then seg.t else Encode(oscNum, seg.payload)
  }

  function Parts(seg: Segment): seq<Item> {
    if seg.Text? then Plains(seg.t) else [Frame(Escape(seg.payload), BEL)]
  }

  predicate Carriable(seg: Segment) {
    if seg.Text? then ESC !in seg.t else ST !in seg.payload
  }

  lemma FeedSegment(oscNum: Bytes, items: seq<Item>, seg: Segment)
    requires CleanNum(oscNum) && Carriable(seg)
    ensures Feed(OscPrefix(oscNum), Demux(Normal, [], items), Written(oscNum, seg)) ==
                Demux(Normal, [], items + Parts(seg))
  {
    hide Feed, Encode, Escape, Plains;
    match seg
    case Text(t) => FeedText(OscPrefix(oscNum), items, t);
    case Message(payload) =>
      EscapedBody(payload);
      EncodeIs(oscNum, payload);
      FeedFrame(oscNum, items, Escape(payload), BEL);
  }

  lemma LastSegment(oscNum: Bytes, segs: seq<Segment>, items: seq<Item>)
    requires segs != []
    ensures
      var n := |segs| - 1;
      && WriteAll(oscNum, segs) == WriteAll(oscNum, segs[..n]) + Written(oscNum, segs[n])
      && items + ItemsOf(segs) == items + ItemsOf(segs[..n]) + Parts(segs[n])
  {
    hide Written, Parts;
  }

  /** Any interleaving of ESC-free text and encoded messages comes apart into exactly that text and
      exactly those (escaped) messages, and leaves nothing pending. */
  lemma {:induction false} RoundTrip(oscNum: Bytes, segs: seq<Segment>, items: seq<Item>)
    requires CleanNum(oscNum) && forall i :: 0 <= i < |segs| ==> Carriable(segs[i])
    ensures Feed(OscPrefix(oscNum), Demux(Normal, [], items), WriteAll(oscNum, segs)) ==
                Demux(Normal, [], items + ItemsOf(segs))
    decreases |segs|
  {
    if segs == [] {
      assert items + [] == items;
    } else {
      hide Feed, Written, Parts, Carriable, WriteAll, ItemsOf;
      var n := |segs| - 1;
      LastSegment(oscNum, segs, items);
      RoundTrip(oscNum, segs[..n], items);
      FeedAppend(OscPrefix(oscNum), Demux(Normal, [], items), WriteAll(oscNum, segs[..n]), Written(oscNum, segs[n]));
      FeedSegment(oscNum, items + ItemsOf(segs[..n]), segs[n]);
    }
  }

  lemma {:induction false} FeedExtends(prefix: Bytes, d: Demux, data: Bytes)
    requires |prefix| == OSC_PREFIX_LEN && Sound(prefix, d)
    ensures d.items <= Feed(prefix, d, data).items
    decreases |data|
  {
    if data != [] {
      FeedExtends(prefix, d, data[..|data| - 1]);
    }
  }

  lemma {:induction false} EscapeSplit(a: Bytes, b: Bytes)
    ensures Escape(a + b) == Escape(a) + Escape(b)
    decreases |a|
  {
    if a == [] {
      assert a + b == b;
    } else {
      assert (a + b)[1..] == a[1..] + b;
      EscapeSplit(a[1..], b);
    }
  }

  lemma EscapeST(s: Bytes)
    requires s != [] && s[0] == ST
    ensures Escape(s) == [ST] + Escape(s[1..])
  {
  }

  /** A payload with an ST is cut there: the first new frame holds what precedes it. */
  lemma STBreaks(oscNum: Bytes, items: seq<Item>, payload: Bytes) returns (i: nat)
    requires CleanNum(oscNum) && ST in payload
    ensures i < |payload| && payload[i] == ST && ST !in payload[..i]
    ensures items + [Frame(Escape(payload[..i]), ST)] <=
            Feed(OscPrefix(oscNum), Demux(Normal, [], items), Encode(oscNum, payload)).items
  {
    hide Feed, Escape, Encode;
    i := FirstST(payload);
    var prefix, start := OscPrefix(oscNum), Demux(Normal, [], items);
    var head := prefix + Escape(payload[..i]) + [ST];
    var rest := Escape(payload[i + 1..]) + [BEL];
    EscapedBody(payload[..i]);
    FeedFrame(oscNum, items, Escape(payload[..i]), ST);
    assert payload == payload[..i] + payload[i..];
    EscapeSplit(payload[..i], payload[i..]);
    EncodeIs(oscNum, payload);
    EscapeST(payload[i..]);
    assert Encode(oscNum, payload) == head + rest;
    FeedAppend(prefix, start, head, rest);
    FeedExtends(prefix, Feed(prefix, start, head), rest);
  }

  /** Past the first n items there is a frame that ended at an ST. */
  predicate STFrameAfter(items: seq<Item>, n: nat) {
    exists p :: n <= p < |items| && items[p].Frame? && items[p].term == ST
  }

  lemma {:induction false} NoSTFrame(segs: seq<Segment>, items: seq<Item>)
    ensures !STFrameAfter(items + ItemsOf(segs), |items|)
    decreases |segs|
  {
    if segs != [] {
      var n := |segs| - 1;
      NoSTFrame(segs[..n], items);
      assert items + ItemsOf(segs) == items + ItemsOf(segs[..n]) + Parts(segs[n]);
    }
  }

  lemma {:induction false} STLeavesFrame(oscNum: Bytes, segs: seq<Segment>, items: seq<Item>, i: nat)
    requires CleanNum(oscNum) && forall j :: 0 <= j < |segs| && segs[j].Text? ==> ESC !in segs[j].t
    requires i < |segs| && segs[i].Message? && ST in segs[i].payload
    ensures STFrameAfter(Feed(OscPrefix(oscNum), Demux(Normal, [], items), WriteAll(oscNum, segs)).items, |items|)
    decreases |segs|
  {
    hide Feed, Written, Parts, WriteAll, ItemsOf;
    var prefix, n, start := OscPrefix(oscNum), |segs| - 1, Demux(Normal, [], items);
    var before := Feed(prefix, start, WriteAll(oscNum, segs[..n]));
    LastSegment(oscNum, segs, items);
    FeedAppend(prefix, start, WriteAll(oscNum, segs[..n]), Written(oscNum, segs[n]));
    if j :| 0 <= j < n && !Carriable(segs[j]) {
      STLeavesFrame(oscNum, segs[..n], items, j);
      FeedExtends(prefix, before, Written(oscNum, segs[n]));
      var p :| |items| <= p < |before.items| && before.items[p].Frame? && before.items[p].term == ST;
      assert Feed(prefix, before, Written(oscNum, segs[n])).items[p] == before.items[p];
    } else {
      assert i == n;
      RoundTrip(oscNum, segs[..n], items);
      var k := STBreaks(oscNum, before.items, segs[n].payload);
      WrittenMessage(oscNum, segs[n]);
      var after := Feed(prefix, before, Written(oscNum, segs[n])).items;
      assert after[|before.items|] == Frame(Escape(segs[n].payload[..k]), ST);
    }
  }

  lemma WrittenMessage(oscNum: Bytes, seg: Segment)
    requires seg.Message?
    ensures Written(oscNum, seg) == Encode(oscNum, seg.payload)
  {
  }

  /** The encoder leaves ST alone although the splitter ends a frame at it; so ESC-free text and
      messages, in any number and order, survive the trip exactly when no payload has an ST. */
  lemma RoundTripIff(oscNum: Bytes, segs: seq<Segment>, items: seq<Item>)
    requires CleanNum(oscNum) && forall i :: 0 <= i < |segs| && segs[i].Text? ==> ESC !in segs[i].t
    ensures (forall i :: 0 <= i < |segs| && segs[i].Message? ==> ST !in segs[i].payload) <==>
            Feed(OscPrefix(oscNum), Demux(Normal, [], items), WriteAll(oscNum, segs)) ==
                Demux(Normal, [], items + ItemsOf(segs))
  {
    hide Feed, ItemsOf, WriteAll, STFrameAfter;
    if i :| 0 <= i < |segs| && segs[i].Message? && ST in segs[i].payload {
      STLeavesFrame(oscNum, segs, items, i);
      NoSTFrame(segs, items);
    } else {
      RoundTrip(oscNum, segs, items);
    }
  }

  /** The text and the payloads among the segments. */
  function TextOf(segs: seq<Segment>): Bytes
    decreases |segs|
  {
    if segs == [] then []
    else
      var last := segs[|segs| - 1];
      TextOf(segs[..|segs| - 1]) + if last.Text? then last.t else []
  }

  function PayloadsOf(segs: seq<Segment>): seq<Bytes>
    decreases |segs|
  {
    if segs == [] then []
    else
      var last := segs[|segs| - 1];
      PayloadsOf(segs[..|segs| - 1]) + if last.Message? then [last.payload] else []
  }

  function UnescapeAll(msgs: seq<Bytes>): seq<Bytes> {
    seq(|msgs|, i requires 0 <= i < |msgs| => Unescape(msgs[i]))
  }

  lemma {:induction false} OutputOfSegments(segs: seq<Segment>)
    requires forall i :: 0 <= i < |segs| && segs[i].Message? ==> !HasEscape(segs[i].payload)
    ensures PlainOf(ItemsOf(segs)) == TextOf(segs) && UnescapeAll(MessagesOf(ItemsOf(segs))) == PayloadsOf(segs)
    decreases |segs|
  {
    if segs != [] {
      hide PlainOf, MessagesOf, Plains, Escape, Unescape, UnescapeAll, HasEscape, ItemsOf, TextOf, PayloadsOf;
      var n := |segs| - 1;
      OutputOfSegments(segs[..n]);
      SegmentsUnfold(segs);
      var before := ItemsOf(segs[..n]);
      match segs[n]
      case Text(t) =>
        PlainsAreOutput(before, t);
      case Message(payload) =>
        OutputAppend(before, Frame(Escape(payload), BEL));
        UnescapesIff(payload);
        UnescapeAppend(MessagesOf(before), Escape(payload));
    } else {
      assert UnescapeAll([]) == [];
    }
  }

  lemma SegmentsUnfold(segs: seq<Segment>)
    requires segs != []
    ensures
      var init, last := segs[..|segs| - 1], segs[|segs| - 1];
      && ItemsOf(segs) == ItemsOf(init) + Parts(last)
      && TextOf(segs) == TextOf(init) + (if last.Text? then last.t else [])
      && PayloadsOf(segs) == PayloadsOf(init) + if last.Message? then [last.payload] else []
  {
    hide Parts;
  }

  lemma UnescapeAppend(msgs: seq<Bytes>, msg: Bytes)
    ensures UnescapeAll(msgs + [msg]) == UnescapeAll(msgs) + [Unescape(msg)]
  {
    hide Unescape;
  }

  /** All the way: the reader passes on exactly the text and, with the escapes read back, exactly the
      payloads, in order, for payloads without an ST or an escape of their own. */
  lemma PayloadsComeBack(oscNum: Bytes, segs: seq<Segment>)
    requires CleanNum(oscNum) && forall i :: 0 <= i < |segs| ==> Carriable(segs[i])
    requires forall i :: 0 <= i < |segs| && segs[i].Message? ==> !HasEscape(segs[i].payload)
    ensures
      var d := Feed(OscPrefix(oscNum), Demux(Normal, [], []), WriteAll(oscNum, segs));
      && d.mode == Normal && d.escSeq == []
      && PlainOf(d.items) == TextOf(segs) && UnescapeAll(MessagesOf(d.items)) == PayloadsOf(segs)
  {
    RoundTrip(oscNum, segs, []);
    OutputOfSegments(segs);
    assert [] + ItemsOf(segs) == ItemsOf(segs);
  }

  // ----- sequences that break off -----

  /** A start of the prefix and a byte that does not continue it pass through as they are. */
  lemma BrokenPrefix(oscNum: Bytes, items: seq<Item>, n: nat, ch: byte)
    requires CleanNum(oscNum) && 1 <= n < OSC_PREFIX_LEN && ch != OscPrefix(oscNum)[n]
    ensures
      var start := OscPrefix(oscNum)[..n] + [ch];
      Feed(OscPrefix(oscNum), Demux(Normal, [], items), start) == Demux(Normal, [], items + Plains(start))
  {
    var prefix := OscPrefix(oscNum);
    var start := prefix[..n] + [ch];
    FeedPrefix(oscNum, items, n);
    FeedLast(prefix, Demux(Normal, [], items), start);
    assert start[..n] == prefix[..n];
    StepPrefix(oscNum, items, n);
  }

  /** A frame that an ESC breaks off passes through as it is, the ESC included; the ESC starts nothing. */
  lemma BrokenFrame(oscNum: Bytes, items: seq<Item>, body: Bytes)
    requires CleanNum(oscNum) && ESC !in body && BEL !in body && ST !in body
    ensures
      var broken := OscPrefix(oscNum) + body + [ESC];
      Feed(OscPrefix(oscNum), Demux(Normal, [], items), broken) == Demux(Normal, [], items + Plains(broken))
  {
    var prefix := OscPrefix(oscNum);
    var broken := prefix + body + [ESC];
    FeedPrefix(oscNum, items, OSC_PREFIX_LEN);
    assert prefix[..OSC_PREFIX_LEN] == prefix;
    FeedAppend(prefix, Demux(Normal, [], items), prefix, body);
    FeedBody(prefix, Demux(WaveEsc, prefix, items), body);
    FeedLast(prefix, Demux(Normal, [], items), broken);
    assert broken[..|prefix + body|] == prefix + body;
  }

  lemma EncodeIs(oscNum: Bytes, payload: Bytes)
    ensures Encode(oscNum, payload) == OscPrefix(oscNum) + Escape(payload) + [BEL]
  {
  }

  lemma FirstST(payload: Bytes) returns (i: nat)
    requires ST in payload
    ensures i < |payload| && payload[i] == ST && ST !in payload[..i]
    decreases |payload|
  {
    if payload[0] == ST {
      i := 0;
    } else {
      assert payload == [payload[0]] + payload[1..];
      var j := FirstST(payload[1..]);
      i := j + 1;
      assert payload[..i] == [payload[0]] + payload[1..][..j];
    }
  }
}
