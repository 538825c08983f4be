/** Commands that Go and TypeScript both decode from JSON, and where they come to the same. */
module IJsonDecoded {
  import opened Basics
  import opened IJson
  import opened IJsonCommands
  import opened IJsonDelete
  import opened IJsonTs

  /** What JSON may hold in a path. */
  datatype JsonElem = JsonKey(k: string) | JsonInt(i: int) | JsonFraction | JsonOther

  /** The field "path": missing or null, an array, or anything else. */
  datatype JsonPath = NoPath | NotAnArray | Elems(elems: seq<JsonElem>)

  /** A JSON object; a type that is missing or no string is "". */
  datatype JsonCommand = JsonCommand(kind: string, path: JsonPath, data: Option<Json>, value: Option<Json>)

  // ----- the two readings -----

  /** Every number is a float64 in Go, which is no path element. */
  function GoElem(e: JsonElem): PathElem {
    if e.JsonKey? then Key(e.k) else BadElem
  }

  /** A number is an index in TypeScript; setPathInternal throws at a fraction exactly as it does at a
      negative one, so Index(-1) stands for it. */
  function TsElem(e: JsonElem): PathElem {
    match e
    case JsonKey(k) => Key(k)
    case JsonInt(i) => Index(i)
    case JsonFraction => Index(-1)
    case JsonOther => BadElem
  }

  function GoPath(path: JsonPath): Path {
    if path.Elems? then seq(|path.elems|, i requires 0 <= i < |path.elems| => GoElem(path.elems[i])) else []
  }

  function TsPath(path: JsonPath): Path {
    if path.Elems? then seq(|path.elems|, i requires 0 <= i < |path.elems| => TsElem(path.elems[i])) else []
  }

  /** What Go makes of the object; getCommandPath takes a path that is no array for the empty one. */
  function GoDecoded(j: JsonCommand): Command {
    GoCommand(RawCommand(j.kind, GoPath(j.path), j.data, j.value))
  }

  /** What TypeScript does with it; checkPath throws at a path that is no array. */
  function TsApplyJson(data: Json, j: JsonCommand): TsOutcome {
    if j.path.NotAnArray? then Throw else TsApplyCommand(data, RawCommand(j.kind, TsPath(j.path), j.data, j.value))
  }

  lemma PathsOf(path: JsonPath)
    ensures GoPath(path) == WirePath(TsPath(path))
  {
  }

  function ToJsonElem(e: PathElem): JsonElem {
    match e
    case Key(k) => JsonKey(k)
    case Index(i) => JsonInt(i)
    case BadElem => JsonOther
  }

  function ToJsonPath(path: Path): JsonPath {
    Elems(seq(|path|, i requires 0 <= i < |path| => ToJsonElem(path[i])))
  }

  /** A command that Go holds in memory, as JSON. */
  function ToJson(raw: RawCommand): JsonCommand {
    JsonCommand(raw.kind, ToJsonPath(raw.path), raw.data, raw.value)
  }

  /** Decoding it again is what Wire says, and the front end reads what it reads in CommandsAgreeIff. */
  lemma ToJsonIsWire(data: Json, raw: RawCommand)
    ensures GoDecoded(ToJson(raw)) == Wire(GoCommand(raw))
    ensures TsApplyJson(data, ToJson(raw)) == TsApplyCommand(data, raw)
  {
    assert TsPath(ToJson(raw).path) == raw.path;
    PathsOf(ToJson(raw).path);
  }

  // ----- agreement -----

  /** Where a del comes to the same on both sides although `tail` begins with a number: Go deletes the
      last key before it, so the delete in TypeScript has to empty what is below that key, and the
      keys have to lead through maps that are not empty. */
  predicate NumberDelAgrees(data: Json, keys: Path, tail: Path)
    requires keys != [] && KeyPath(keys)
    decreases |keys|
  {
    || !data.Obj?
    || var k, m := keys[0].k, data.fields;
       if |keys| == 1 then m != map[] && TsVanishes(if k in m then m[k] else Null, tail)
       else if k in m then (m[k] == Null || m[k].Obj?) && NumberDelAgrees(m[k], keys[1..], tail)
       else m != map[]
  }

  /** The same for any path, as TypeScript reads it. */
  predicate DecodedDelsAgree(data: Json, path: Path) {
    var n := KeysOf(path);
    if BadElem in path then n == 0 || (data != Null && !data.Obj?)
    else if n == |path| then DelsAgree(data, path)
    else if n == 0 then TsThrows(data, path)
    else NumberDelAgrees(data, path[..n], path[n..])
  }

  /** And for set and append: the data does not admit it, or there is no number in the path and the two
      operands are the same. A path that is no array is the root in Go and an error in TypeScript. */
  predicate DecodedSetsAgree(data: Json, j: JsonCommand, append: bool) {
    Settable(data, TsPath(j.path), append) ==>
      !j.path.NotAnArray? && KeyPath(TsPath(j.path)) && OrNull(j.data) == OrNull(j.value)
  }

  predicate DecodedAgree(data: Json, j: JsonCommand) {
    if j.kind == "set" then DecodedSetsAgree(data, j, false)
    else if j.kind == "append" then DecodedSetsAgree(data, j, true)
    else if j.kind == "del" then !j.path.NotAnArray? && DecodedDelsAgree(data, TsPath(j.path))
    else true
  }

  /** Exactly when Go and TypeScript get the same from a command that both decode, or both fail: for
      every such object and all data. */
  lemma DecodedAgreeIff(data: Json, j: JsonCommand)
    ensures Agree(ApplyCommand(data, GoDecoded(j), 0), TsApplyJson(data, j)) <==> DecodedAgree(data, j)
  {
    PathsOf(j.path);
    if j.kind == "set" {
      DecodedSetsAgreeIff(data, j, Replace);
    } else if j.kind == "append" {
      DecodedSetsAgreeIff(data, j, ArrayAppend);
    } else if j.kind == "del" {
      assert DEL.(budget := 0) == DEL;
      if !j.path.NotAnArray? {
        DecodedDelsAgreeIff(data, TsPath(j.path));
      }
    }
  }

  lemma DecodedSetsAgreeIff(data: Json, j: JsonCommand, combine: Combine)
    ensures
      var opts := SetPathOpts(0, false, false, combine);
      var ts := TsSetPath(data, TsPath(j.path), OrNull(j.value), false, false, combine);
      Agree(SetPath(data, GoPath(j.path), OrNull(j.data), opts), if j.path.NotAnArray? then Throw else ts) <==>
        DecodedSetsAgree(data, j, combine == ArrayAppend)
  {
    var opts, path, v, w := SetPathOpts(0, false, false, combine), TsPath(j.path), OrNull(j.data), OrNull(j.value);
    PathsOf(j.path);
    WireSetIff(data, path, v, opts);
    SettableIff(data, path, v, combine);
    if KeyPath(path) {
      assert WirePath(path) == path;
      OperandsAgreeIff(data, path, v, w, combine);
    } else {
      SetsAgree(data, path, w, false, combine);
      SettableIff(data, path, w, combine);
    }
  }

  lemma DecodedDelsAgreeIff(data: Json, path: Path)
    ensures Agree(Del(data, WirePath(path)), TsSetPath(data, path, Null, false, true, Replace)) <==>
              DecodedDelsAgree(data, path)
  {
    var n := KeysOf(path);
    if n == |path| {
      assert path[..n] == path;
      assert WirePath(path) == path;
      DelInternalsAgreeIff(data, path);
    } else {
      WireDelDeletesKey(data, path);
      if n == 0 {
        TsDelIff(data, path);
      } else {
        DelOnKeys(data, path[..n]);
        DelFailsIff(data, path[..n]);
        assert path == path[..n] + path[n..];
        NumberDelAgreesIff(data, path[..n], path[n..]);
      }
    }
  }

  function GoNumberDel(data: Json, keys: Path): Outcome {
    if EmptyMapAt(data, keys) then Outcome(data, None) else Del(data, keys)
  }

  lemma {:induction false} NumberDelAgreesIff(data: Json, keys: Path, tail: Path)
    requires keys != [] && KeyPath(keys) && tail != [] && !tail[0].Key?
    ensures Agree(GoNumberDel(data, keys), TsDel(data, keys + tail)) <==> NumberDelAgrees(data, keys, tail)
    decreases |keys|
  {
    var k, path := keys[0].k, keys + tail;
    assert path[0] == keys[0] && path[1..] == keys[1..] + tail;
    DelUnfolds(data, keys);
    if data.Obj? {
      var m := data.fields;
      var child := if k in m then m[k] else Null;
      if |keys| == 1 {
        assert path[1..] == tail;
        TsDelIff(child, tail);
        assert m[k := Null][k] == Null && k !in m - {k};
      } else {
        var go, ts := GoNumberDel(child, keys[1..]), TsDel(child, path[1..]);
        NumberDelAgreesIff(child, keys[1..], tail);
        DelOnKeys(child, keys[1..]);
        DelFailsIff(child, keys[1..]);
        assert k !in m ==> m - {k} == m;
        assert go.Outcome? ==> m[k := go.value][k] == go.value;
        assert ts.Ok? ==> m[k := ts.value][k] == ts.value;
        assert m[k := child][k] == child && (k in m ==> m[k := child] == m) && k !in m - {k};
      }
    }
  }

  /** A number that is no index is refused where it is met and not before: setPath lets it pass, and a del
      that finds nothing above it goes through. Anything but a string or a number is refused at once. */
  lemma FractionMetLate(k: string, v: Json)
    ensures
      var path := Elems([JsonKey(k), JsonFraction]);
      && TsApplyJson(Null, JsonCommand("set", path, None, Some(v))) == Throw
      && TsApplyJson(Null, JsonCommand("del", path, None, None)) == Ok(Null)
      && TsApplyJson(Obj(map[k := v]), JsonCommand("del", path, None, None)) == Throw
      && TsApplyJson(Null, JsonCommand("del", Elems([JsonKey(k), JsonOther]), None, None)) == Throw
  {
    var path := TsPath(Elems([JsonKey(k), JsonFraction]));
    assert path == [Key(k), Index(-1)] && path[1..] == [Index(-1)];
    var other := TsPath(Elems([JsonKey(k), JsonOther]));
    assert other == [Key(k), BadElem] && other[1] in other;
    assert forall e :: e in path ==> e == Key(k) || e == Index(-1);
    assert TsSetInternal(Null, [Index(-1)], v, false, false, Replace) == Throw;
    assert TsSetInternal(v, [Index(-1)], Null, false, true, Replace) == Throw;
  }

  /** The smallest such failure: Go drops the array, TypeScript its last element; and while Go held
      the command in memory they agreed. */
  lemma DecodedDelDropsArray(x: Json, y: Json)
    requires x != Null
    ensures
      var data, raw := Obj(map["a" := Arr([x, y])]), RawCommand("del", [Key("a"), Index(1)], None, None);
      && CommandsAgree(data, raw)
      && ApplyCommand(data, GoDecoded(ToJson(raw)), 0) == Outcome(Null, None)
      && TsApplyJson(data, ToJson(raw)) == Ok(Obj(map["a" := Arr([x])]))
  {
    var data, raw := Obj(map["a" := Arr([x, y])]), RawCommand("del", [Key("a"), Index(1)], None, None);
    ToJsonIsWire(data, raw);
    assert raw.path[1..] == [Index(1)];
    assert WirePath(raw.path) == [Key("a")] + [BadElem] + [];
    BadElemDeletesKey(data, [Key("a")], []);
    assert [x, y][..1] == [x];
    assert data.fields - {"a"} == map[];
    assert data.fields["a" := Arr([x])] == map["a" := Arr([x])];
  }
}
