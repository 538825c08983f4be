/** A codec for commands that meets what the log demands of JSON: so there is one. It writes every
    value behind a tag and every list behind marks; in which order it takes the keys of a map does not
    matter. */
module IJsonCodec {
  import opened Basics
  import opened OscCodec
  import opened IJson
  import opened IJsonCommands
  import opened LineFraming
  import opened IJsonLog

  // ----- the code -----

  /** Binary digits, the lowest first. */
  function CodeNat(n: nat): Bytes {
    if n == 0 then [0] else [2 + n % 2] + CodeNat(n / 2)
  }

  function CodeInt(i: int): Bytes {
    if i < 0 then [1] + CodeNat(-i) else [0] + CodeNat(i)
  }

  function CodeStr(s: string): Bytes
    decreases |s|
  {
    if s == "" then [0] else [1] + CodeNat(s[0] as int) + CodeStr(s[1..])
  }

  ghost function SomeKey(keys: set<string>): (k: string)
    requires keys != {}
    ensures k in keys
  {
    var k :| k in keys;
    k
  }

  ghost function CodeJson(j: Json): Bytes
    decreases j, 1
  {
    match j
    case Null => [0]
    case Bool(b) => [1, if b then 1 else 0]
    case Num(bits) => [2] + CodeNat(bits)
    case Str(s) => [3] + CodeStr(s)
    case Arr(_) => [4] + CodeElems(j, 0)
    case Obj(m) => [5] + CodeFields(j, m.Keys)
  }

  ghost function CodeElems(j: Json, from: nat): Bytes
    requires j.Arr? && from <= |j.elems|
    decreases j, 0, |j.elems| - from
  {
    if from == |j.elems| then [0] else [1] + CodeJson(j.elems[from]) + CodeElems(j, from + 1)
  }

  ghost function CodeFields(j: Json, keys: set<string>): Bytes
    requires j.Obj? && keys <= j.fields.Keys
    decreases j, 0, |keys|
  {
    if keys == {} then [0]
    else
      var k := SomeKey(keys);
      [1] + CodeStr(k) + CodeJson(j.fields[k]) + CodeFields(j, keys - {k})
  }

  function CodeElem(e: PathElem): Bytes {
    match e
    case Key(k) => [1] + CodeStr(k)
    case Index(i) => [2] + CodeInt(i)
    case BadElem => [3]
  }

  function CodePath(path: Path): Bytes
    decreases |path|
  {
    if path == [] then [0] else CodeElem(path[0]) + CodePath(path[1..])
  }

  function Kind(c: Command): byte {
    match c
    case SetCmd(_, _) => 1
    case DelCmd(_) => 2
    case AppendCmd(_, _) => 3
    case Unknown => 4
  }

  ghost function Body(c: Command): Bytes {
    match c
    case SetCmd(path, v) => CodePath(path) + CodeJson(v)
    case DelCmd(path) => CodePath(path)
    case AppendCmd(path, v) => CodePath(path) + CodeJson(v)
    case Unknown => []
  }

  ghost function Code(c: Command): Bytes {
    [Kind(c)] + Body(c)
  }

  // ----- it can be read back, whatever follows -----

  lemma SameTail(tag: byte, x: Bytes, other: byte, y: Bytes)
    requires [tag] + x == [other] + y
    ensures tag == other && x == y
  {
    assert ([tag] + x)[0] == tag && ([other] + y)[0] == other;
    assert ([tag] + x)[1..] == x && ([other] + y)[1..] == y;
  }

  lemma {:induction false} ReadNat(n: nat, m: nat, x: Bytes, y: Bytes)
    requires CodeNat(n) + x == CodeNat(m) + y
    ensures n == m && x == y
    decreases n
  {
    assert (CodeNat(n) + x)[0] == CodeNat(n)[0] && (CodeNat(m) + y)[0] == CodeNat(m)[0];
    if n == 0 || m == 0 {
      SameTail(0, x, 0, y);
    } else {
      Assoc([2 + n % 2], CodeNat(n / 2), x);
      Assoc([2 + m % 2], CodeNat(m / 2), y);
      SameTail(2 + n % 2, CodeNat(n / 2) + x, 2 + m % 2, CodeNat(m / 2) + y);
      ReadNat(n / 2, m / 2, x, y);
    }
  }

  lemma ReadInt(i: int, k: int, x: Bytes, y: Bytes)
    requires CodeInt(i) + x == CodeInt(k) + y
    ensures i == k && x == y
  {
    var n, m := if i < 0 then -i else i, if k < 0 then -k else k;
    var s, t := if i < 0 then 1 else 0, if k < 0 then 1 else 0;
    Assoc([s], CodeNat(n), x);
    Assoc([t], CodeNat(m), y);
    SameTail(s, CodeNat(n) + x, t, CodeNat(m) + y);
    ReadNat(n, m, x, y);
  }

  lemma {:induction false} ReadStr(s: string, t: string, x: Bytes, y: Bytes)
    requires CodeStr(s) + x == CodeStr(t) + y
    ensures s == t && x == y
    decreases |s|
  {
    assert (CodeStr(s) + x)[0] == CodeStr(s)[0] && (CodeStr(t) + y)[0] == CodeStr(t)[0];
    if s == "" || t == "" {
      SameTail(0, x, 0, y);
    } else {
      var a, b := CodeNat(s[0] as int), CodeNat(t[0] as int);
      Assoc3(1, a, CodeStr(s[1..]), x);
      Assoc3(1, b, CodeStr(t[1..]), y);
      SameTail(1, a + (CodeStr(s[1..]) + x), 1, b + (CodeStr(t[1..]) + y));
      ReadNat(s[0] as int, t[0] as int, CodeStr(s[1..]) + x, CodeStr(t[1..]) + y);
      ReadStr(s[1..], t[1..], x, y);
      assert s == [s[0]] + s[1..] && t == [t[0]] + t[1..];
    }
  }

  lemma Assoc3(tag: byte, a: Bytes, b: Bytes, x: Bytes)
    ensures [tag] + a + b + x == [tag] + (a + (b + x))
  {
    Assoc([tag] + a, b, x);
    Assoc([tag], a, b + x);
  }

  /** The tag of a value, and what follows it. */
  ghost function Tag(j: Json): byte {
    match j
    case Null => 0
    case Bool(_) => 1
    case Num(_) => 2
    case Str(_) => 3
    case Arr(_) => 4
    case Obj(_) => 5
  }

  lemma {:induction false} ReadJson(j: Json, k: Json, x: Bytes, y: Bytes)
    requires CodeJson(j) + x == CodeJson(k) + y
    ensures j == k && x == y
    decreases j, 1
  {
    var a, b := CodeJson(j)[1..], CodeJson(k)[1..];
    assert CodeJson(j) == [Tag(j)] + a && CodeJson(k) == [Tag(k)] + b;
    Assoc([Tag(j)], a, x);
    Assoc([Tag(k)], b, y);
    SameTail(Tag(j), a + x, Tag(k), b + y);
    match j
    case Null =>
      assert a + x == x && b + y == y;
    case Bool(_) =>
      SameTail(a[0], x, b[0], y);
    case Num(bits) =>
      ReadNat(bits, k.bits, x, y);
    case Str(s) =>
      ReadStr(s, k.s, x, y);
    case Arr(elems) =>
      ReadElems(j, 0, k, 0, x, y);
      assert elems[0..] == elems && k.elems[0..] == k.elems;
    case Obj(m) =>
      ReadFields(j, m.Keys, k, k.fields.Keys, x, y);
      assert m == k.fields;
  }

  lemma {:induction false} ReadElems(j: Json, from: nat, k: Json, from': nat, x: Bytes, y: Bytes)
    requires j.Arr? && from <= |j.elems| && k.Arr? && from' <= |k.elems|
    requires CodeElems(j, from) + x == CodeElems(k, from') + y
    ensures j.elems[from..] == k.elems[from'..] && x == y
    decreases j, 0, |j.elems| - from
  {
    assert (CodeElems(j, from) + x)[0] == CodeElems(j, from)[0]
        && (CodeElems(k, from') + y)[0] == CodeElems(k, from')[0];
    if from == |j.elems| || from' == |k.elems| {
      SameTail(0, x, 0, y);
    } else {
      var e, e' := j.elems[from], k.elems[from'];
      var a, b := CodeElems(j, from + 1), CodeElems(k, from' + 1);
      Assoc3(1, CodeJson(e), a, x);
      Assoc3(1, CodeJson(e'), b, y);
      SameTail(1, CodeJson(e) + (a + x), 1, CodeJson(e') + (b + y));
      ReadJson(e, e', a + x, b + y);
      ReadElems(j, from + 1, k, from' + 1, x, y);
      assert j.elems[from..] == [e] + j.elems[from + 1..] && k.elems[from'..] == [e'] + k.elems[from' + 1..];
    }
  }

  lemma {:induction false} ReadFields(j: Json, keys: set<string>, k: Json, keys': set<string>, x: Bytes, y: Bytes)
    requires j.Obj? && keys <= j.fields.Keys && k.Obj? && keys' <= k.fields.Keys
    requires CodeFields(j, keys) + x == CodeFields(k, keys') + y
    ensures keys == keys' && (forall key :: key in keys ==> j.fields[key] == k.fields[key]) && x == y
    decreases j, 0, |keys|
  {
    assert (CodeFields(j, keys) + x)[0] == CodeFields(j, keys)[0]
        && (CodeFields(k, keys') + y)[0] == CodeFields(k, keys')[0];
    if keys == {} || keys' == {} {
      SameTail(0, x, 0, y);
    } else {
      var n, n' := SomeKey(keys), SomeKey(keys');
      var v, v' := CodeJson(j.fields[n]), CodeJson(k.fields[n']);
      var a, b := CodeFields(j, keys - {n}), CodeFields(k, keys' - {n'});
      Assoc4(CodeStr(n), v, a, x);
      Assoc4(CodeStr(n'), v', b, y);
      SameTail(1, CodeStr(n) + (v + (a + x)), 1, CodeStr(n') + (v' + (b + y)));
      ReadStr(n, n', v + (a + x), v' + (b + y));
      ReadJson(j.fields[n], k.fields[n'], a + x, b + y);
      ReadFields(j, keys - {n}, k, keys' - {n'}, x, y);
      assert keys == (keys - {n}) + {n} && keys' == (keys' - {n}) + {n};
    }
  }

  lemma Assoc4(a: Bytes, b: Bytes, c: Bytes, x: Bytes)
    ensures [1] + a + b + c + x == [1] + (a + (b + (c + x)))
  {
    Assoc([1] + a + b, c, x);
    Assoc3(1, a, b, c + x);
  }

  lemma ReadElem(e: PathElem, f: PathElem, x: Bytes, y: Bytes)
    requires CodeElem(e) + x == CodeElem(f) + y
    ensures e == f && x == y
  {
    var a, b := CodeElem(e)[1..], CodeElem(f)[1..];
    assert CodeElem(e) == [CodeElem(e)[0]] + a && CodeElem(f) == [CodeElem(f)[0]] + b;
    Assoc([CodeElem(e)[0]], a, x);
    Assoc([CodeElem(f)[0]], b, y);
    SameTail(CodeElem(e)[0], a + x, CodeElem(f)[0], b + y);
    match e
    case Key(k) => ReadStr(k, f.k, x, y);
    case Index(i) => ReadInt(i, f.i, x, y);
    case BadElem => assert a + x == x && b + y == y;
  }

  lemma ElemMark(e: PathElem)
    ensures CodeElem(e) != [] && CodeElem(e)[0] != 0
  {
  }

  lemma {:induction false} ReadPath(p: Path, q: Path, x: Bytes, y: Bytes)
    requires CodePath(p) + x == CodePath(q) + y
    ensures p == q && x == y
    decreases |p|
  {
    if p != [] {
      ElemMark(p[0]);
    }
    if q != [] {
      ElemMark(q[0]);
    }
    hide CodeElem;
    assert (CodePath(p) + x)[0] == CodePath(p)[0] && (CodePath(q) + y)[0] == CodePath(q)[0];
    if p == [] || q == [] {
      SameTail(0, x, 0, y);
    } else {
      Assoc(CodeElem(p[0]), CodePath(p[1..]), x);
      Assoc(CodeElem(q[0]), CodePath(q[1..]), y);
      ReadElem(p[0], q[0], CodePath(p[1..]) + x, CodePath(q[1..]) + y);
      ReadPath(p[1..], q[1..], x, y);
      assert p == [p[0]] + p[1..] && q == [q[0]] + q[1..];
    }
  }

  /** The code of a command shows where it ends, and of which command it is. */
  lemma ReadCode(c: Command, d: Command, x: Bytes, y: Bytes)
    requires Code(c) + x == Code(d) + y
    ensures c == d && x == y
  {
    hide CodePath, CodeJson;
    Assoc([Kind(c)], Body(c), x);
    Assoc([Kind(d)], Body(d), y);
    SameTail(Kind(c), Body(c) + x, Kind(d), Body(d) + y);
    if c.Unknown? {
      assert [] + x == x && [] + y == y;
    } else if c.DelCmd? {
      ReadPath(c.path, d.path, x, y);
    } else {
      Assoc(CodePath(c.path), CodeJson(c.data), x);
      Assoc(CodePath(d.path), CodeJson(d.data), y);
      ReadPath(c.path, d.path, CodeJson(c.data) + x, CodeJson(d.data) + y);
      ReadJson(c.data, d.data, x, y);
    }
  }

  // ----- the codec -----

  ghost function Encode(c: Command): Bytes {
    Code(Wire(c))
  }

  ghost function Decode(bytes: Bytes): Option<Command> {
    if exists c :: Code(c) == bytes then
      var c :| Code(c) == bytes;
      Some(c)
    else None
  }

  ghost function Witness(): Codec {
    Codec((c: Command) => Encode(c), (bytes: Bytes) => Decode(bytes))
  }

  /** The demands on the codec of a log can be met, and with them that it rejects two encodings in a
      row. */
  lemma WitnessIsFaithful()
    ensures Faithful(Witness())
    ensures forall c: Command, d: Command :: Witness().dec(Witness().enc(c) + Witness().enc(d)).None?
  {
    forall c: Command
      ensures Decode(Encode(c)) == Some(Wire(c)) && NL !in Encode(c) && Encode(c) != []
    {
      DecodesTo(Wire(c));
      CodeHasNoNL(Wire(c));
    }
    forall c: Command, d: Command
      ensures Decode(Encode(c) + Encode(d)).None?
    {
      Joined(Wire(c), Wire(d));
    }
  }

  lemma DecodesTo(c: Command)
    ensures Decode(Code(c)) == Some(c)
  {
    var d := Decode(Code(c)).value;
    assert Code(c) + [] == Code(d) + [];
    ReadCode(c, d, [], []);
  }

  lemma Joined(c: Command, d: Command)
    ensures Decode(Code(c) + Code(d)).None?
  {
    forall e
      ensures Code(e) != Code(c) + Code(d)
    {
      assert Code(d) != [];
      if Code(e) == Code(c) + Code(d) {
        assert Code(e) + [] == Code(e);
        ReadCode(e, c, [], Code(d));
      }
    }
  }

  // ----- and it has no newline -----

  predicate Small(s: Bytes) {
    forall b :: b in s ==> b < 6
  }

  lemma CodeHasNoNL(c: Command)
    ensures NL !in Code(c) && Code(c) != []
  {
    if !c.Unknown? {
      SmallPath(c.path);
    }
    if c.SetCmd? || c.AppendCmd? {
      SmallJson(c.data);
    }
    assert Small(Code(c));
  }

  lemma {:induction false} SmallNat(n: nat)
    ensures Small(CodeNat(n))
    decreases n
  {
    if n != 0 {
      SmallNat(n / 2);
    }
  }

  lemma {:induction false} SmallStr(s: string)
    ensures Small(CodeStr(s))
    decreases |s|
  {
    if s != "" {
      SmallNat(s[0] as int);
      SmallStr(s[1..]);
    }
  }

  lemma {:induction false} SmallJson(j: Json)
    ensures Small(CodeJson(j))
    decreases j, 1
  {
    match j
    case Num(bits) => SmallNat(bits);
    case Str(s) => SmallStr(s);
    case Arr(_) => SmallElems(j, 0);
    case Obj(m) => SmallFields(j, m.Keys);
    case _ =>
  }

  lemma {:induction false} SmallElems(j: Json, from: nat)
    requires j.Arr? && from <= |j.elems|
    ensures Small(CodeElems(j, from))
    decreases j, 0, |j.elems| - from
  {
    if from < |j.elems| {
      SmallJson(j.elems[from]);
      SmallElems(j, from + 1);
    }
  }

  lemma {:induction false} SmallFields(j: Json, keys: set<string>)
    requires j.Obj? && keys <= j.fields.Keys
    ensures Small(CodeFields(j, keys))
    decreases j, 0, |keys|
  {
    if keys != {} {
      var k := SomeKey(keys);
      SmallStr(k);
      SmallJson(j.fields[k]);
      SmallFields(j, keys - {k});
    }
  }

  lemma SmallElem(e: PathElem)
    ensures Small(CodeElem(e))
  {
    match e
    case Key(k) => SmallStr(k);
    case Index(i) => SmallNat(if i < 0 then -i else i);
    case BadElem =>
  }

  lemma {:induction false} SmallPath(path: Path)
    ensures Small(CodePath(path))
    decreases |path|
  {
    if path != [] {
      SmallElem(path[0]);
      hide CodeElem;
      SmallPath(path[1..]);
    }
  }
}
