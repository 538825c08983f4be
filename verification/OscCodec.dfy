/** Operating system command strings (section 8.3.89 of ECMA-48) as carrier of RPC messages: the
    encoder. A message is ESC ] number ; payload BEL. */
module OscCodec {
  import opened Basics

  type Bytes = seq<byte>

  const ESC: byte := 0x1B
  const BEL: byte := 0x07
  const ST: byte := 0x9C  // string terminator, section 8.3.143 of ECMA-48

  const OSC_PREFIX_LEN := 8  // WaveOSCPrefixLen

  const HEX_CHARS: Bytes := [48, 49, 50, 51, 52, 53, 54, 55, 56, 57, 65, 66, 67, 68, 69, 70]

  predicate IsControl(b: byte) {
    b < 0x20 || b == 0x7F
  }

  /** ESC ] number ; */
  function OscPrefix(oscNum: Bytes): Bytes {
    [ESC, 93] + oscNum + [59]
  }

  /** A control byte becomes the six bytes \u00XX (section 7 of RFC 8259); others stay. */
  function EscapeByte(b: byte): Bytes {
    if IsControl(b) then [92, 117, 48, 48, HEX_CHARS[b / 16], HEX_CHARS[b % 16]] else [b]
  }

  function Escape(payload: Bytes): Bytes
    decreases |payload|
  {
    if payload == [] then [] else EscapeByte(payload[0]) + Escape(payload[1..])
  }

  function Encode(oscNum: Bytes, payload: Bytes): Bytes {
    OscPrefix(oscNum) + Escape(payload) + [BEL]
  }

  // ----- the loops of the source -----

  /** copyOscPrefix */
  method CopyOscPrefix(dst: array<byte>, oscNum: Bytes)
    requires |oscNum| + 3 <= dst.Length
    modifies dst
    ensures dst[..] == OscPrefix(oscNum) + old(dst[|oscNum| + 3..])
  {
    dst[0] := ESC;
    dst[1] := 93;
    forall i | 0 <= i < |oscNum| {
      dst[2 + i] := oscNum[i];
    }
    dst[|oscNum| + 2] := 59;
  }

  /** makeOscPrefix */
  method MakeOscPrefix(oscNum: Bytes) returns (prefix: Bytes)
    ensures prefix == OscPrefix(oscNum)
  {
    var output := new byte[|oscNum| + 3](_ => 0);
    CopyOscPrefix(output, oscNum);
    prefix := output[..];
  }

  lemma {:induction false} EscapeAppend(payload: Bytes, b: byte)
    ensures Escape(payload + [b]) == Escape(payload) + EscapeByte(b)
    decreases |payload|
  {
    if payload == [] {
      assert [b][1..] == [];
    } else {
      assert (payload + [b])[1..] == payload[1..] + [b];
      EscapeAppend(payload[1..], b);
    }
  }

  lemma {:induction false} EscapeNothing(payload: Bytes)
    requires forall i :: 0 <= i < |payload| ==> !IsControl(payload[i])
    ensures Escape(payload) == payload
    decreases |payload|
  {
    if payload != [] {
      EscapeNothing(payload[1..]);
    }
  }

  method EncodePlain(oscNum: Bytes, barr: Bytes) returns (encoded: Bytes)
    ensures encoded == OscPrefix(oscNum) + barr + [BEL]
  {
    var output := new byte[|oscNum| + 3 + |barr| + 1](_ => 0);
    CopyOscPrefix(output, oscNum);
    forall i | 0 <= i < |barr| {
      output[|oscNum| + 3 + i] := barr[i];
    }
    output[output.Length - 1] := BEL;
    encoded := output[..];
  }

  method EncodeEscaped(oscNum: Bytes, barr: Bytes) returns (encoded: Bytes)
    ensures encoded == Encode(oscNum, barr)
  {
    hide OscPrefix;
    var buf := MakeOscPrefix(oscNum);
    var escSeq := new byte[6](i => if i == 0 then 92 else if i == 1 then 117 else 48);
    for i := 0 to |barr|
      invariant buf == OscPrefix(oscNum) + Escape(barr[..i])
      invariant escSeq[..4] == [92, 117, 48, 48]
    {
      var b := barr[i];
      EscapeAppend(barr[..i], b);
      assert barr[..i + 1] == barr[..i] + [b];
      Assoc(OscPrefix(oscNum), Escape(barr[..i]), EscapeByte(b));
      if b < 0x20 || b == 0x7F {
        escSeq[4] := HEX_CHARS[b / 16];
        escSeq[5] := HEX_CHARS[b % 16];
        assert escSeq[..] == escSeq[..4] + [escSeq[4], escSeq[5]];
        assert escSeq[..] == EscapeByte(b);
        buf := buf + escSeq[..];
      } else {
        buf := buf + [b];
      }
    }
    assert barr[..|barr|] == barr;
    encoded := buf + [BEL];
  }

  /** EncodeWaveOSCBytes: a fast path that copies when nothing needs escaping, and a loop that reuses
      one escape buffer. Both give Encode. The source panics unless the number has five characters. */
  method EncodeWaveOSCBytes(oscNum: Bytes, barr: Bytes) returns (encoded: Bytes)
    requires |oscNum| == 5
    ensures encoded == Encode(oscNum, barr)
  {
    var hasControlChars := false;
    for i := 0 to |barr|
      invariant !hasControlChars && forall j :: 0 <= j < i ==> !IsControl(barr[j])
    {
      if barr[i] < 0x20 || barr[i] == 0x7F {
        hasControlChars := true;
        break;
      }
    }
    if !hasControlChars {
      EscapeNothing(barr);
      encoded := EncodePlain(oscNum, barr);
    } else {
      encoded := EncodeEscaped(oscNum, barr);
    }
  }

  lemma EscapedByte(b: byte)
    ensures forall x :: x in EscapeByte(b) ==> 0x20 <= x && x != 0x7F
    ensures ST in EscapeByte(b) <==> b == ST
  {
  }

  /** No control byte is left inside a frame, so nothing in it can end or restart the sequence
      early; ST, which is not an ASCII control byte, passes through. */
  lemma {:induction false} EscapeHasNoControl(payload: Bytes)
    ensures forall x :: x in Escape(payload) ==> 0x20 <= x && x != 0x7F
    ensures ST in Escape(payload) <==> ST in payload
    decreases |payload|
  {
    if payload != [] {
      EscapeHasNoControl(payload[1..]);
      EscapedByte(payload[0]);
      hide EscapeByte, IsControl;
      assert payload == [payload[0]] + payload[1..];
    }
  }

  // ----- reading the escapes back -----

  /** The value of an ASCII hexadecimal digit, in either case. */
  function HexValue(c: byte): Option<nat> {
    if '0' as int <= c <= '9' as int then Some(c - '0' as int)
    else if 'A' as int <= c <= 'F' as int then Some(c - 'A' as int + 10)
    else if 'a' as int <= c <= 'f' as int then Some(c - 'a' as int + 10)
    else None
  }

  /** An escape \u00hl stands at the front (section 7 of RFC 8259). */
  predicate StartsEscaped(s: Bytes) {
    && |s| >= 6 && s[0] == '\\' as int && s[1] == 'u' as int && s[2] == '0' as int && s[3] == '0' as int
    && HexValue(s[4]).Some? && HexValue(s[5]).Some?
  }

  function EscapedValue(s: Bytes): byte
    requires StartsEscaped(s)
  {
    16 * HexValue(s[4]).value + HexValue(s[5]).value
  }

  /** What a reader of these escapes makes of a text. */
  function Unescape(s: Bytes): Bytes
    decreases |s|
  {
    if s == [] then []
    else if StartsEscaped(s) then [EscapedValue(s)] + Unescape(s[6..])
    else [s[0]] + Unescape(s[1..])
  }

  /** The payload itself has such an escape somewhere. */
  predicate HasEscape(payload: Bytes)
    decreases |payload|
  {
    payload != [] && (StartsEscaped(payload) || HasEscape(payload[1..]))
  }

  /** A control byte becomes the escape of its value; any other byte stays. */
  lemma ControlEscape(b: byte)
    ensures b < 0x20 || b == 0x7F ==>
              |EscapeByte(b)| == 6 && StartsEscaped(EscapeByte(b)) && EscapedValue(EscapeByte(b)) == b
    ensures !(b < 0x20 || b == 0x7F) ==> EscapeByte(b) == [b]
  {
  }

  lemma EscapeTail(payload: Bytes)
    requires payload != [] && !IsControl(payload[0])
    ensures Escape(payload) == [payload[0]] + Escape(payload[1..])
  {
  }

  lemma {:induction false} SamePrefix(payload: Bytes, n: nat)
    requires n <= |payload| && forall i :: 0 <= i < n ==> !IsControl(payload[i])
    ensures Escape(payload) == payload[..n] + Escape(payload[n..])
    decreases n
  {
    if n > 0 {
      EscapeTail(payload);
      hide Escape;
      SamePrefix(payload[1..], n - 1);
      assert payload[1..][n - 1..] == payload[n..];
      assert payload[..n] == [payload[0]] + payload[1..][..n - 1];
      Assoc([payload[0]], payload[1..][..n - 1], Escape(payload[n..]));
    } else {
      assert payload[0..] == payload;
    }
  }

  /** Where an escaped payload has no backslash, it is the payload. */
  lemma {:induction false} NoBackslash(payload: Bytes, n: nat)
    requires n <= |Escape(payload)| && forall i :: 0 <= i < n ==> Escape(payload)[i] != '\\' as int
    ensures n <= |payload| && forall i :: 0 <= i < n ==> !IsControl(payload[i])
    decreases n
  {
    if n > 0 {
      assert Escape(payload) == EscapeByte(payload[0]) + Escape(payload[1..]);
      assert Escape(payload)[0] == EscapeByte(payload[0])[0];
      assert !IsControl(payload[0]);
      assert forall i :: 0 <= i < n - 1 ==> Escape(payload[1..])[i] == Escape(payload)[i + 1];
      NoBackslash(payload[1..], n - 1);
      assert forall i :: 0 < i < n ==> payload[i] == payload[1..][i - 1];
    }
  }

  lemma PlainStart(payload: Bytes)
    requires StartsEscaped(payload)
    ensures Escape(payload) == payload[..6] + Escape(payload[6..])
    ensures StartsEscaped(Escape(payload))
  {
    hide Escape;
    SamePrefix(payload, 6);
  }

  /** An escaped payload that does not start with a control byte starts with an escape exactly if the
      payload does. */
  lemma EscapeStarts(payload: Bytes)
    requires payload != [] && !IsControl(payload[0])
    ensures StartsEscaped(Escape(payload)) <==> StartsEscaped(payload)
  {
    hide Escape, IsControl, HexValue;
    if StartsEscaped(payload) {
      PlainStart(payload);
    } else if StartsEscaped(Escape(payload)) {
      var e, rest := Escape(payload), payload[1..];
      EscapeTail(payload);
      forall i | 0 <= i < 5
        ensures Escape(rest)[i] == e[i + 1] && e[i + 1] != '\\' as int
      {
        DigitIsNoBackslash(e[i + 1]);
      }
      NoBackslash(rest, 5);
      SamePrefix(rest, 5);
    }
  }

  lemma DigitIsNoBackslash(c: byte)
    ensures HexValue(c).Some? ==> c != '\\' as int
  {
  }

  /** Reading back never makes a payload longer, and gives it back exactly if it has no escape of its
      own. */
  lemma {:induction false} UnescapeLength(payload: Bytes)
    ensures |Unescape(Escape(payload))| <= |payload|
    ensures HasEscape(payload) ==> |Unescape(Escape(payload))| < |payload|
    ensures !HasEscape(payload) ==> Unescape(Escape(payload)) == payload
    decreases |payload|
  {
    if payload != [] {
      var b, rest := payload[0], payload[1..];
      ControlEscape(b);
      assert Escape(payload) == EscapeByte(b) + Escape(rest);
      assert payload == [b] + rest;
      if IsControl(b) {
        UnescapeLength(rest);
        UnescapeFirst(EscapeByte(b), Escape(rest));
      } else {
        EscapeStarts(payload);
        if StartsEscaped(payload) {
          PlainStart(payload);
          UnescapeLength(payload[6..]);
          UnescapeFirst(payload[..6], Escape(payload[6..]));
        } else {
          UnescapeLength(rest);
          assert Escape(payload)[1..] == Escape(rest);
        }
      }
    }
  }

  lemma UnescapeFirst(front: Bytes, rest: Bytes)
    requires |front| == 6 && StartsEscaped(front)
    ensures Unescape(front + rest) == [EscapedValue(front)] + Unescape(rest)
  {
    assert (front + rest)[6..] == rest;
  }

  /** The reader takes an escaped payload back exactly if the payload has no such escape of its own. */
  lemma UnescapesIff(payload: Bytes)
    ensures Unescape(Escape(payload)) == payload <==> !HasEscape(payload)
  {
    UnescapeLength(payload);
  }

  /** In particular without a backslash. */
  lemma {:induction false} NoBackslashNoEscape(payload: Bytes)
    requires '\\' as int !in payload
    ensures !HasEscape(payload)
    decreases |payload|
  {
    if payload != [] {
      NoBackslashNoEscape(payload[1..]);
    }
  }
}
