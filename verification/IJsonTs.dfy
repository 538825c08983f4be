/** The second interpreter of the path-update language, the TypeScript one, and where it agrees with
    the Go one. */
module IJsonTs {
  import opened Basics
  import opened IJson
  import opened IJsonDelete

  datatype TsOutcome = Ok(value: Json) | Throw

  /** combineFn_arrayAppend */
  function TsAppend(oldVal: Json, newVal: Json, force: bool): TsOutcome {
    if oldVal == Null then Ok(Arr([newVal]))
    else if !oldVal.Arr? && !force then Throw
    else if !oldVal.Arr? then Ok(Arr([newVal]))
    else Ok(Arr(oldVal.elems + [newVal]))
  }

  /** removeFromArr */
  function RemoveFromArr(arr: seq<Json>, idx: nat): Json {
    if idx >= |arr| then Arr(arr)
    else if idx == |arr| - 1 then ArrOrNull(arr[..idx])
    else Arr(arr[idx := Null])
  }

  /** Assigning past the end of an array leaves holes, which read as nil. */
  function Assign(arr: seq<Json>, idx: nat, v: Json): seq<Json> {
    if idx < |arr| then arr[idx := v] else arr + Nulls(idx - |arr|) + [v]
  }

  /** setPathInternal of ijson.ts; undefined is read as nil. */
  function TsSetInternal(obj: Json, path: Path, value: Json, force: bool, remove: bool, combine: Combine): TsOutcome
    decreases |path|
  {
    if path == [] then
      if combine == ArrayAppend then TsAppend(obj, value, force) else Ok(value)
    else
      match path[0]
      case Key(k) =>
        if obj == Null && remove then Ok(Null)
        else if obj != Null && !obj.Obj? && !force then Throw
        else
          var m := if obj.Obj? then obj.fields else map[];
          if remove && |path| == 1 then Ok(ObjOrNull(m - {k}))
          else
            var child := if k in m then m[k] else Null;
            var newVal := TsSetInternal(child, path[1..], value, force, remove, combine);
            if newVal.Throw? then Throw
            else if remove && newVal.value == Null then Ok(ObjOrNull(m - {k}))
            else Ok(Obj(m[k := newVal.value]))
      case Index(i) =>
        if i < 0 then Throw
        else if obj == Null && remove then Ok(Null)
        else if obj != Null && !obj.Arr? && !force then Throw
        else
          var a := if obj.Arr? then obj.elems else [];
          if remove && |path| == 1 then Ok(RemoveFromArr(a, i))
          else
            var child := if i < |a| then a[i] else Null;
            var newVal := TsSetInternal(child, path[1..], value, force, remove, combine);
            if newVal.Throw? then Throw
            else if remove && newVal.value == Null then Ok(RemoveFromArr(a, i))
            else Ok(Arr(Assign(a, i, newVal.value)))
      case BadElem => Throw
  }

  /** setPath of ijson.ts: checks the whole path first. */
  function TsSetPath(obj: Json, path: Path, value: Json, force: bool, remove: bool, combine: Combine): TsOutcome {
    if remove && value != Null then Throw
    else if BadElem in path then Throw
    else TsSetInternal(obj, path, value, force, remove, combine)
  }

  // ----- reading -----

  /** Reading comes to a negative index while there still is a value. */
  predicate MeetsNegative(data: Json, path: Path)
    decreases |path|
  {
    && data != Null && path != []
    && match path[0]
       case Key(k) => data.Obj? && k in data.fields && MeetsNegative(data.fields[k], path[1..])
       case Index(i) => i < 0 || (data.Arr? && i < |data.elems| && MeetsNegative(data.elems[i], path[1..]))
       case BadElem => false
  }

  /** getPath of ijson.ts: a loop. It agrees with the Go function in value and in error exactly when no
      negative index is met; such an index is an error in Go and reads as nil here. */
  method TsGetPath(obj: Json, path: Path) returns (r: TsOutcome)
    ensures r == (if GetPath(obj, path).1.Some? then Throw else Ok(GetPath(obj, path).0)) <==> !MeetsNegative(obj, path)
    ensures MeetsNegative(obj, path) ==> r == Ok(Null) && GetPath(obj, path).1.Some?
  {
    var cur := obj;
    for i := 0 to |path|
      invariant GetPath(cur, path[i..]) == GetPath(obj, path)
      invariant MeetsNegative(cur, path[i..]) == MeetsNegative(obj, path)
    {
      assert path[i..][1..] == path[i + 1..];
      if cur == Null {
        return Ok(Null);
      }
      match path[i]
      case Key(k) =>
        if !cur.Obj? {
          return Ok(Null);
        }
        cur := if k in cur.fields then cur.fields[k] else Null;
      case Index(n) =>
        if n < 0 || !cur.Arr? {
          return Ok(Null);
        }
        cur := if n < |cur.elems| then cur.elems[n] else Null;
      case BadElem =>
        return Throw;
    }
    return Ok(cur);
  }

  // ----- agreement -----

  /** The two results are the same success, or both are failures. */
  predicate Agree(go: Outcome, ts: TsOutcome) {
    if ts.Ok? then Succeeds(go) && go.value == ts.value else !Succeeds(go)
  }

  /** Without a budget, the TypeScript interpreter goes down and up through the levels of the Go one. */
  lemma TsSetUnfolds(data: Json, path: Path, value: Json, force: bool, combine: Combine)
    requires path != []
    ensures
      var d := Descend(data, path[0], SetPathOpts(0, force, false, combine));
      var r := TsSetInternal(data, path, value, force, false, combine);
      if d.None? then r.Throw?
      else
        var sub := TsSetInternal(d.value.0, path[1..], value, force, false, combine);
        r == if sub.Throw? then Throw else Ok(Rebuild(data, path[0], sub.value))
  {
  }

  lemma {:induction false} SetInternalsAgree(data: Json, path: Path, value: Json, force: bool, combine: Combine)
    ensures Agree(SetPathInternal(data, path, value, SetPathOpts(0, force, false, combine)),
                  TsSetInternal(data, path, value, force, false, combine))
    decreases |path|
  {
    var opts := SetPathOpts(0, force, false, combine);
    if path != [] {
      SetUnfolds(data, path, value, opts);
      SetNeverPanics(data, path, value, opts);
      TsSetUnfolds(data, path, value, force, combine);
      var d := Descend(data, path[0], opts);
      if d.Some? {
        assert d.value.1 == 0 && opts.(budget := 0) == opts;
        SetInternalsAgree(d.value.0, path[1..], value, force, combine);
        SetNeverPanics(d.value.0, path[1..], value, opts);
      }
      hide SetPathInternal, TsSetInternal, Descend, Rebuild;
    }
  }

  lemma {:induction false} BadElemFails(data: Json, path: Path, value: Json, opts: SetPathOpts)
    requires !opts.remove && BadElem in path
    ensures !Succeeds(SetPathInternal(data, path, value, opts))
    decreases |path|
  {
    SetUnfolds(data, path, value, opts);
    var d := Descend(data, path[0], opts);
    if d.Some? {
      assert path == [path[0]] + path[1..];
      BadElemFails(d.value.0, path[1..], value, opts.(budget := d.value.1));
    }
  }

  /** For set and append, on every data, path and value, with or without Force and with no budget,
      the Go and the TypeScript interpreter agree: the same result, or both report an error. */
  lemma SetsAgree(data: Json, path: Path, value: Json, force: bool, combine: Combine)
    ensures Agree(SetPath(data, path, value, SetPathOpts(0, force, false, combine)),
                  TsSetPath(data, path, value, force, false, combine))
  {
    SetInternalsAgree(data, path, value, force, combine);
    if BadElem in path {
      BadElemFails(data, path, value, SetPathOpts(0, force, false, combine));
    }
  }

  /** Neither interpreter removes and sets at once. */
  lemma RemoveWithValueRefused(data: Json, path: Path, value: Json, force: bool, budget: int)
    requires value != Null
    ensures !Succeeds(SetPath(data, path, value, SetPathOpts(budget, force, true, Replace)))
    ensures TsSetPath(data, path, value, force, true, Replace) == Throw
  {
  }

  predicate StartsBad(path: Path) {
    path != [] && (path[0].BadElem? || (path[0].Index? && path[0].i < 0))
  }

  /** Where the interpreters agree on del. They part ways where TypeScript prunes a map that was
      empty before or checks an element that Go never looks at, where Go panics or drops an array, and
      where Go swallows an error. */
  predicate DelsAgree(data: Json, path: Path)
    decreases |path|
  {
    || path == [] || data == Null
    || match path[0]
       case Key(k) =>
         if !data.Obj? || |path| == 1 then true
         else if k !in data.fields then data.fields != map[] && !StartsBad(path[1..])
         else
           && DelsAgree(data.fields[k], path[1..])
           && !(DelFails(data.fields[k], path[1..]) && Vanishes(data.fields[k], path[1..]))
       case Index(i) =>
         if i < 0 || !data.Arr? then true
         else
           && i < |data.elems|
           && (|path| == 1 ||
               (DelsAgree(data.elems[i], path[1..]) &&
                !(i == |data.elems| - 1 && DelFails(data.elems[i], path[1..]) && Vanishes(data.elems[i], path[1..]))))
       case BadElem => true
  }

  /** A delete of nothing. */
  lemma TsDelOfNull(path: Path)
    requires path != []
    ensures TsSetInternal(Null, path, Null, false, true, Replace) == if StartsBad(path) then Throw else Ok(Null)
  {
  }

  function TsDel(data: Json, path: Path): TsOutcome {
    TsSetInternal(data, path, Null, false, true, Replace)
  }

  /** The delete throws: it reaches an element that does not fit the data. */
  predicate TsThrows(data: Json, path: Path)
    decreases |path|
  {
    && path != []
    && match path[0]
       case Key(k) =>
         data != Null &&
         (!data.Obj? || (|path| > 1 && TsThrows(if k in data.fields then data.fields[k] else Null, path[1..])))
       case Index(i) =>
         i < 0 ||
         (data != Null &&
          (!data.Arr? || (|path| > 1 && TsThrows(if i < |data.elems| then data.elems[i] else Null, path[1..]))))
       case BadElem => true
  }

  /** The delete leaves nil in place of the data: every container on the path holds nothing else. */
  predicate TsVanishes(data: Json, path: Path)
    decreases |path|
  {
    || path == []
    || match path[0]
       case Key(k) =>
         || data == Null
         || (&& data.Obj? && data.fields - {k} == map[]
             && (|path| == 1 || TsVanishes(if k in data.fields then data.fields[k] else Null, path[1..])))
       case Index(i) =>
         && i >= 0
         && (|| data == Null
             || (&& data.Arr? && |data.elems| == 1 && i == 0
                 && (|path| == 1 || TsVanishes(data.elems[0], path[1..]))))
       case BadElem => false
  }

  /** Exactly when a delete throws, and when it leaves nil: for all data and all paths. */
  lemma {:induction false} TsDelIff(data: Json, path: Path)
    ensures TsDel(data, path).Throw? <==> TsThrows(data, path)
    ensures TsDel(data, path) == Ok(Null) <==> TsVanishes(data, path)
    decreases |path|
  {
    if |path| > 1 {
      match path[0]
      case Key(k) =>
        if data.Obj? {
          TsDelIff(if k in data.fields then data.fields[k] else Null, path[1..]);
        }
      case Index(i) =>
        if i >= 0 && data.Arr? {
          TsDelIff(if i < |data.elems| then data.elems[i] else Null, path[1..]);
        }
      case BadElem =>
    }
  }

  lemma {:induction false} TsNeverPanics(data: Json, path: Path)
    requires EndsPastArray(data, path)
    ensures TsDel(data, path).Ok?
    decreases |path|
  {
    if |path| > 1 {
      TsNeverPanics(if path[0].Key? then data.fields[path[0].k] else data.elems[path[0].i], path[1..]);
    }
  }

  /** Exactly when the recursive parts agree on a delete: for all data and all paths. */
  lemma {:induction false} DelInternalsAgreeIff(data: Json, path: Path)
    ensures Agree(Del(data, path), TsDel(data, path)) <==> DelsAgree(data, path)
    decreases |path|
  {
    if EndsPastArray(data, path) {
      TsNeverPanics(data, path);
      DelPanicsIff(data, path);
      PastArrayDisagrees(data, path);
    } else if path != [] {
      match path[0]
      case Key(k) => KeyDelAgrees(data, path);
      case Index(i) => IndexDelAgrees(data, path);
      case BadElem =>
    }
  }

  lemma {:induction false} PastArrayDisagrees(data: Json, path: Path)
    requires EndsPastArray(data, path)
    ensures !DelsAgree(data, path)
    decreases |path|
  {
    if |path| > 1 {
      PastArrayDisagrees(if path[0].Key? then data.fields[path[0].k] else data.elems[path[0].i], path[1..]);
    }
  }

  lemma {:induction false} KeyDelAgrees(data: Json, path: Path)
    requires path != [] && path[0].Key? && !EndsPastArray(data, path)
    ensures Agree(Del(data, path), TsDel(data, path)) <==> DelsAgree(data, path)
    decreases |path|, 0
  {
    DelUnfolds(data, path);
    if data.Obj? && |path| > 1 {
      var k, m, rest := path[0].k, data.fields, path[1..];
      if k in m {
        DelInternalsAgreeIff(m[k], rest);
        VanishesIff(m[k], rest);
        DelFailsIff(m[k], rest);
        var go, ts := Del(m[k], rest), TsDel(m[k], rest);
        assert m[k := go.value][k] == go.value && k !in m - {k};
        if ts.Ok? {
          assert m[k := ts.value][k] == ts.value;
        }
      } else {
        TsDelOfNull(rest);
        assert m - {k} == m;
      }
    }
  }

  lemma {:induction false} IndexDelAgrees(data: Json, path: Path)
    requires path != [] && path[0].Index? && !EndsPastArray(data, path)
    ensures Agree(Del(data, path), TsDel(data, path)) <==> DelsAgree(data, path)
    decreases |path|, 0
  {
    DelUnfoldsAt(data, path);
    var i, rest := path[0].i, path[1..];
    if i >= 0 && data.Arr? && |path| > 1 {
      var a := data.elems;
      if i < |a| {
        DelInternalsAgreeIff(a[i], rest);
        VanishesIff(a[i], rest);
        DelFailsIff(a[i], rest);
        var go, ts := Del(a[i], rest), TsDel(a[i], rest);
        assert a[i := go.value][i] == go.value;
        if ts.Ok? {
          assert a[i := ts.value][i] == ts.value;
        }
      } else {
        TsDelOfNull(rest);
      }
    }
  }

  /** Exactly when del agrees: for all data and all paths, for every budget of the file. */
  lemma DelsAgreeIff(data: Json, path: Path, budget: nat)
    ensures Agree(SetPath(data, path, Null, DEL.(budget := budget)),
                TsSetPath(data, path, Null, false, true, Replace)) <==>
              if BadElem in path then DelFails(data, path) || EndsPastArray(data, path) else DelsAgree(data, path)
  {
    DelIgnoresBudget(data, path, budget);
    DelInternalsAgreeIff(data, path);
    DelPanicsIff(data, path);
    if !EndsPastArray(data, path) {
      DelFailsIff(data, path);
    }
  }

  /** In particular on data without empty maps whose levels along a string-key path are maps or nil. */
  lemma {:induction false} CleanDelsAgree(data: Json, path: Path)
    requires KeyTyped(data, path) && NoEmptyMaps(data)
    ensures DelsAgree(data, path)
    decreases |path|
  {
    if path != [] && data.Obj? && |path| > 1 {
      KeyTypedIsKeys(data, path);
      var k, rest := path[0].k, path[1..];
      if k in data.fields {
        CleanDelsAgree(data.fields[k], rest);
        KeyTypedIsKeys(data.fields[k], rest);
        DelOnKeys(data.fields[k], rest);
      } else {
        assert rest[0] == path[1];
      }
    }
  }

  lemma {:induction false} KeyTypedIsKeys(data: Json, path: Path)
    requires KeyTyped(data, path)
    ensures KeyPath(path)
    decreases |path|
  {
    if path != [] {
      KeyTypedIsKeys(if data.Obj? && path[0].k in data.fields then data.fields[path[0].k] else Null, path[1..]);
      assert forall j :: 0 < j < |path| ==> path[j] == path[1..][j - 1];
    }
  }

  // ----- when a set succeeds -----

  /** Along the path there are maps where it has keys and arrays where it has indices, or nil; for an
      append there is an array or nil at the end. */
  predicate Settable(data: Json, path: Path, append: bool)
    decreases |path|
  {
    if path == [] then append ==> data == Null || data.Arr?
    else
      match path[0]
      case Key(k) =>
        && (data == Null || data.Obj?)
        && Settable(if data.Obj? && k in data.fields then data.fields[k] else Null, path[1..], append)
      case Index(i) =>
        && i >= 0 && (data == Null || data.Arr?)
        && Settable(if data.Arr? && i < |data.elems| then data.elems[i] else Null, path[1..], append)
      case BadElem => false
  }

  /** Exactly when a set or append without Force and budget succeeds; the value plays no part. */
  lemma {:induction false} SettableIff(data: Json, path: Path, value: Json, combine: Combine)
    ensures Succeeds(SetPath(data, path, value, SetPathOpts(0, false, false, combine))) <==>
              Settable(data, path, combine == ArrayAppend)
    decreases |path|
  {
    var opts := SetPathOpts(0, false, false, combine);
    if path != [] {
      SetUnfolds(data, path, value, opts);
      SetNeverPanics(data, path, value, opts);
      var d := Descend(data, path[0], opts);
      if d.Some? {
        assert d.value.1 == 0 && opts.(budget := 0) == opts;
        SettableIff(d.value.0, path[1..], value, combine);
        SetNeverPanics(d.value.0, path[1..], value, opts);
      }
    }
  }
}
