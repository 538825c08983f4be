/** Commands of the path-update language: applying them in Go and in TypeScript, and sending them
    through JSON. */
module IJsonCommands {
  import opened Basics
  import opened IJson
  import opened IJsonDelete
  import opened IJsonTs

  /** A command as Go reads it; Unknown is one whose type is missing or not among the three. */
  datatype Command =
    | SetCmd(path: Path, data: Json)
    | DelCmd(path: Path)
    | AppendCmd(path: Path, data: Json)
    | Unknown

  /** ApplyCommand */
  function ApplyCommand(data: Json, c: Command, budget: int): Outcome {
    match c
    case SetCmd(path, v) => SetPath(data, path, v, SetPathOpts(budget, false, false, Replace))
    case DelCmd(path) => SetPath(data, path, Null, SetPathOpts(budget, false, true, Replace))
    case AppendCmd(path, v) => SetPath(data, path, v, SetPathOpts(budget, false, false, ArrayAppend))
    case Unknown => Outcome(Null, Some(ErrCommand))
  }

  /** A del command is Del, whatever the budget of the file; so this is exactly when one panics. */
  lemma DelCommandPanicsIff(data: Json, path: Path, budget: nat)
    ensures ApplyCommand(data, DelCmd(path), budget) == Del(data, path)
    ensures ApplyCommand(data, DelCmd(path), budget).Panic? <==> EndsPastArray(data, path)
  {
    DelIgnoresBudget(data, path, budget);
    DelPanicsIff(data, path);
  }

  /** A set or append along string keys, on well-typed data, goes through under a budget exactly if that
      covers the new map entries, one more for an append; 0 is unlimited. */
  lemma CommandBudgetIff(data: Json, path: Path, v: Json, budget: int)
    requires KeyTyped(data, path)
    ensures Succeeds(ApplyCommand(data, SetCmd(path, v), budget)) <==>
              budget == 0 || NewEntries(data, path) <= Max(budget, 0)
    ensures LeafOf(data, path) == Null || LeafOf(data, path).Arr? ==>
              (Succeeds(ApplyCommand(data, AppendCmd(path, v), budget)) <==>
               budget == 0 || NewEntries(data, path) + 1 <= Max(budget, 0))
  {
    BudgetIsExact(data, path, v, SetPathOpts(budget, false, false, Replace));
    if LeafOf(data, path) == Null || LeafOf(data, path).Arr? {
      BudgetIsExact(data, path, v, SetPathOpts(budget, false, false, ArrayAppend));
    }
  }

  /** A command that goes through under a budget makes what it makes without one. */
  lemma CommandResult(data: Json, c: Command, budget: nat)
    requires Succeeds(ApplyCommand(data, c, budget))
    ensures ApplyCommand(data, c, budget) == ApplyCommand(data, c, 0)
  {
    match c
    case SetCmd(path, v) => BudgetOnlyRefuses(data, path, v, SetPathOpts(budget, false, false, Replace));
    case AppendCmd(path, v) => BudgetOnlyRefuses(data, path, v, SetPathOpts(budget, false, false, ArrayAppend));
    case DelCmd(path) =>
      DelIgnoresBudget(data, path, budget);
      DelIgnoresBudget(data, path, 0);
    case Unknown =>
  }

  /** What a successful command leaves at its path: the value set, nil after a del, or the array that was
      there with one more element. */
  lemma CommandThenGet(data: Json, c: Command)
    requires Succeeds(ApplyCommand(data, c, 0))
    ensures !c.Unknown?
    ensures c.SetCmd? ==> GetPath(ApplyCommand(data, c, 0).value, c.path) == (c.data, None)
    ensures c.DelCmd? && c.path != [] && KeyPath(c.path) ==>
              GetPath(ApplyCommand(data, c, 0).value, c.path) == (Null, None)
    ensures c.AppendCmd? ==>
              var was := GetPath(data, c.path).0;
              GetPath(ApplyCommand(data, c, 0).value, c.path) ==
                  (Arr((if was.Arr? then was.elems else []) + [c.data]), None)
  {
    match c
    case SetCmd(path, v) => SetThenGet(data, path, v, SetPathOpts(0, false, false, Replace));
    case AppendCmd(path, v) => AppendThenGet(data, path, v, SetPathOpts(0, false, false, ArrayAppend));
    case DelCmd(path) =>
      DelIgnoresBudget(data, path, 0);
      if path != [] && KeyPath(path) {
        DelThenGet(data, path);
      }
    case Unknown =>
  }

  // ----- the two readings of one object -----

  /** A command that Go holds in memory, with integers in its path, and that the front end gets as JSON:
      its type ("" when missing), its path (empty when missing or nil) and its operand under either
      name. A BadElem here is neither a string nor a number. For a command that both decode from JSON
      see IJsonDecoded. */
  datatype RawCommand = RawCommand(kind: string, path: Path, data: Option<Json>, value: Option<Json>)

  function OrNull(v: Option<Json>): Json {
    if v.Some? then v.value else Null
  }

  /** Go takes the operand from the field "data". */
  function GoCommand(raw: RawCommand): Command {
    if raw.kind == "set" then SetCmd(raw.path, OrNull(raw.data))
    else if raw.kind == "del" then DelCmd(raw.path)
    else if raw.kind == "append" then AppendCmd(raw.path, OrNull(raw.data))
    else Unknown
  }

  /** applyCommand of ijson.ts, which takes it from the field "value". */
  function TsApplyCommand(data: Json, raw: RawCommand): TsOutcome {
    if raw.kind == "" || BadElem in raw.path then Throw
    else if raw.kind == "set" then TsSetPath(data, raw.path, OrNull(raw.value), false, false, Replace)
    else if raw.kind == "del" then TsSetPath(data, raw.path, Null, false, true, Replace)
    else if raw.kind == "append" then TsSetPath(data, raw.path, OrNull(raw.value), false, false, ArrayAppend)
    else Throw
  }

  /** MakeSetCommand, MakeDelCommand and MakeAppendCommand never write the field "value". */
  function Made(c: Command): RawCommand {
    match c
    case SetCmd(path, v) => RawCommand("set", path, Some(v), None)
    case DelCmd(path) => RawCommand("del", path, None, None)
    case AppendCmd(path, v) => RawCommand("append", path, Some(v), None)
    case Unknown => RawCommand("", [], None, None)
  }

  /** Where the two come to the same: for set and append, if the data does not admit the command at
      all or the two fields hold the same; for del, where the deletes agree. */
  predicate CommandsAgree(data: Json, raw: RawCommand) {
    if raw.kind == "set" then !Settable(data, raw.path, false) || OrNull(raw.data) == OrNull(raw.value)
    else if raw.kind == "append" then !Settable(data, raw.path, true) || OrNull(raw.data) == OrNull(raw.value)
    else if raw.kind == "del" then
      if BadElem in raw.path then DelFails(data, raw.path) || EndsPastArray(data, raw.path)
      else DelsAgree(data, raw.path)
    else true
  }

  /** Exactly when Go and TypeScript get the same from a command that Go holds in memory, or both fail. */
  lemma CommandsAgreeIff(data: Json, raw: RawCommand)
    ensures Agree(ApplyCommand(data, GoCommand(raw), 0), TsApplyCommand(data, raw)) <==> CommandsAgree(data, raw)
  {
    if raw.kind == "set" {
      OperandsAgreeIff(data, raw.path, OrNull(raw.data), OrNull(raw.value), Replace);
    } else if raw.kind == "append" {
      OperandsAgreeIff(data, raw.path, OrNull(raw.data), OrNull(raw.value), ArrayAppend);
    } else if raw.kind == "del" {
      DelsAgreeIff(data, raw.path, 0);
      assert DEL.(budget := 0) == DEL;
    }
  }

  /** What is left of that for a command that Go has made. */
  predicate Understood(data: Json, c: Command) {
    match c
    case SetCmd(path, v) => v == Null || !Settable(data, path, false)
    case AppendCmd(path, v) => v == Null || !Settable(data, path, true)
    case DelCmd(path) =>
      if BadElem in path then DelFails(data, path) || EndsPastArray(data, path) else DelsAgree(data, path)
    case Unknown => true
  }

  /** So a set or append that Go makes is understood exactly if its operand is nil or the data does not
      admit it, and a del exactly where the deletes agree. */
  lemma MadeAgreesIff(data: Json, c: Command)
    ensures Agree(ApplyCommand(data, c, 0), TsApplyCommand(data, Made(c))) <==> Understood(data, c)
  {
    assert GoCommand(Made(c)) == c;
    CommandsAgreeIff(data, Made(c));
  }

  /** The smallest command that the front end misreads. */
  lemma GoSetReadAsNil(v: Json)
    requires v != Null
    ensures ApplyCommand(Null, SetCmd([], v), 0) == Outcome(v, None)
    ensures TsApplyCommand(Null, Made(SetCmd([], v))) == Ok(Null)
  {
  }

  lemma OperandsAgreeIff(data: Json, path: Path, v: Json, w: Json, combine: Combine)
    ensures
      var opts := SetPathOpts(0, false, false, combine);
      Agree(SetPath(data, path, v, opts), TsSetPath(data, path, w, false, false, combine)) <==>
        !Settable(data, path, combine == ArrayAppend) || v == w
  {
    var opts := SetPathOpts(0, false, false, combine);
    SetsAgree(data, path, w, false, combine);
    SettableIff(data, path, v, combine);
    SettableIff(data, path, w, combine);
    if Settable(data, path, combine == ArrayAppend) && v != w {
      if combine == Replace {
        SetThenGet(data, path, v, opts);
        SetThenGet(data, path, w, opts);
      } else {
        AppendThenGet(data, path, v, opts);
        AppendThenGet(data, path, w, opts);
        var was := GetPath(data, path).0;
        var elems := if was.Arr? then was.elems else [];
        assert (elems + [v])[|elems|] != (elems + [w])[|elems|];
      }
    }
  }

  // ----- through JSON -----

  /** A number in a path comes back from JSON as a float64, which no branch of the Go interpreter
      accepts. */
  function WirePath(path: Path): (r: Path)
    ensures |r| == |path|
    ensures forall i :: 0 <= i < |path| ==> r[i] == if path[i].Index? then BadElem else path[i]
  {
    seq(|path|, i requires 0 <= i < |path| => if path[i].Index? then BadElem else path[i])
  }

  function Wire(c: Command): Command {
    if c.Unknown? then c else c.(path := WirePath(c.path))
  }

  /** ValidateAndMarshalCommand accepts strings and integers in a path. */
  predicate Sendable(c: Command) {
    !c.Unknown? && BadElem !in c.path
  }

  /** Exactly the commands without numbers come back as they were. */
  lemma WireKeepsIff(c: Command)
    requires Sendable(c)
    ensures Wire(c) == c <==> KeyPath(c.path)
  {
    if KeyPath(c.path) {
      assert WirePath(c.path) == c.path;
    }
    if Wire(c) == c {
      forall j | 0 <= j < |c.path|
        ensures c.path[j].Key?
      {
        assert WirePath(c.path)[j] == c.path[j] && c.path[j] in c.path;
      }
    }
  }

  /** A set or append that has been through JSON can only succeed when its path has no number; then it
      means the same as before. */
  lemma WireSetIff(data: Json, path: Path, v: Json, opts: SetPathOpts)
    requires !opts.remove
    ensures Succeeds(SetPath(data, WirePath(path), v, opts)) <==>
                KeyPath(path) && Succeeds(SetPath(data, path, v, opts))
  {
    if KeyPath(path) {
      assert WirePath(path) == path;
    } else {
      var j :| 0 <= j < |path| && !path[j].Key?;
      assert WirePath(path)[j] == BadElem;
      BadElemFails(data, WirePath(path), v, opts);
    }
  }

  /** How many keys the path starts with. */
  function KeysOf(path: Path): (n: nat)
    ensures n <= |path| && KeyPath(path[..n]) && (n < |path| ==> !path[n].Key?)
    decreases |path|
  {
    if path == [] || !path[0].Key? then 0
    else
      var n := KeysOf(path[1..]);
      assert path[..n + 1] == [path[0]] + path[1..][..n];
      1 + n
  }

  /** A del that has been through JSON with a number in its path, at any depth: it deletes the last key
      before the number and reports success, unless that key's map is empty, which it leaves. With
      the number in front it reports an error. */
  lemma WireDelDeletesKey(data: Json, path: Path)
    requires KeysOf(path) < |path|
    ensures
      var keys := path[..KeysOf(path)];
      Del(data, WirePath(path)) ==
      if keys == [] then Outcome(Null, Some(ErrPath))
      else if EmptyMapAt(data, keys) then Outcome(data, None)
      else Del(data, keys)
  {
    var n := KeysOf(path);
    if n > 0 {
      var keys, rest := path[..n], WirePath(path)[n + 1..];
      assert WirePath(path) == keys + [BadElem] + rest by {
        forall j | 0 <= j < n
          ensures WirePath(path)[j] == keys[j]
        {
          assert path[..n][j] == path[j];
        }
      }
      BadElemDeletesKey(data, keys, rest);
    }
  }

  /** Where the trip through JSON makes no difference to a del: without a number; with one in front that
      is negative and so an error anyway; or if the keys before it do not lead anywhere, or lead to
      something of which the whole path would have left nothing either. */
  predicate WireDelSame(data: Json, path: Path) {
    var n := KeysOf(path);
    || n == |path| || path[n].BadElem?
    || if n == 0 then path[0].i < 0
       else Reached(data, path[..n]) ==>
              !EndsPastArray(ValueAt(data, path[..n]), path[n..]) && Vanishes(ValueAt(data, path[..n]), path[n..])
  }

  lemma WireDelSameIff(data: Json, path: Path)
    ensures Del(data, WirePath(path)) == Del(data, path) <==> WireDelSame(data, path)
  {
    var n := KeysOf(path);
    var wire := WirePath(path);
    if n == |path| {
      assert path[..n] == path;
      assert wire == path;
    } else if n == 0 {
      if path[0].Index? {
        DelUnfoldsAt(data, path);
      }
    } else {
      var keys, tail, wireTail := path[..n], path[n..], wire[n..];
      assert path == keys + tail;
      assert wire == keys + wireTail by {
        forall j | 0 <= j < n
          ensures wire[j] == keys[j]
        {
          assert path[..n][j] == path[j];
        }
      }
      if Reached(data, keys) {
        ReachedDiffers(data, keys, tail, wireTail);
      } else {
        UnreachedSame(data, keys, tail, wireTail);
      }
    }
  }

  lemma {:induction false} UnreachedSame(data: Json, keys: Path, a: Path, b: Path)
    requires KeyPath(keys) && !Reached(data, keys) && a != [] && b != []
    ensures Del(data, keys + a) == Del(data, keys + b)
    decreases |keys|
  {
    assert (keys + a)[0] == keys[0] == (keys + b)[0];
    assert (keys + a)[1..] == keys[1..] + a && (keys + b)[1..] == keys[1..] + b;
    DelUnfolds(data, keys + a);
    DelUnfolds(data, keys + b);
    if data.Obj? && keys[0].k in data.fields {
      UnreachedSame(data.fields[keys[0].k], keys[1..], a, b);
    }
  }

  /** What is left of a value below keys is there afterwards. */
  lemma {:induction false} DelBelowKeys(data: Json, keys: Path, tail: Path)
    requires Reached(data, keys) && tail != []
    ensures
      var sub := Del(ValueAt(data, keys), tail);
      if sub.Panic? then Del(data, keys + tail) == Panic
      else if sub.value != Null then
        Del(data, keys + tail).Outcome? && GetPath(Del(data, keys + tail).value, keys) == (sub.value, None)
      else true
    decreases |keys|
  {
    if keys == [] {
      assert keys + tail == tail;
    } else {
      assert (keys + tail)[0] == keys[0] && (keys + tail)[1..] == keys[1..] + tail;
      DelUnfolds(data, keys + tail);
      DelBelowKeys(data.fields[keys[0].k], keys[1..], tail);
      var child := Del(data.fields[keys[0].k], keys[1..] + tail);
      if child.Outcome? && child.value == Null && keys[1..] != [] {
        assert GetPath(Null, keys[1..]) == (Null, None);
      }
    }
  }

  lemma ReachedDiffers(data: Json, keys: Path, tail: Path, wireTail: Path)
    requires keys != [] && KeyPath(keys) && Reached(data, keys)
    requires tail != [] && wireTail != [] && wireTail[0] == BadElem
    ensures Del(data, keys + wireTail) == Del(data, keys + tail) <==>
              !EndsPastArray(ValueAt(data, keys), tail) && Vanishes(ValueAt(data, keys), tail)
  {
    var c := ValueAt(data, keys);
    DelStopsAtKey(data, keys, wireTail);
    DelThenGet(data, keys);
    DelPanicsIff(c, tail);
    DelBelowKeys(data, keys, tail);
    if !EndsPastArray(c, tail) {
      VanishesIff(c, tail);
      if Vanishes(c, tail) {
        DelStopsAtKey(data, keys, tail);
      }
    }
  }
}
