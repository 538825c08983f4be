/** The path-update language over JSON values: the Go interpreter, at the level of decoded values. */
module IJson {
  import opened Basics

  /** A finite float64, by its bits: JSON has no infinities and no NaN. */
  type Float64 = n: nat | n < 0x1_0000_0000_0000_0000 && n / 0x10_0000_0000_0000 % 0x800 != 0x7FF

  datatype Json =
    | Null
    | Bool(b: bool)
    | Num(bits: Float64)
    | Str(s: string)
    | Arr(elems: seq<Json>)
    | Obj(fields: map<string, Json>)

  /** A path element; BadElem is any other Go value, such as the float64 that a number decoded from
      JSON becomes. */
  datatype PathElem = Key(k: string) | Index(i: int) | BadElem

  type Path = seq<PathElem>

  datatype IJsonError = ErrPath | ErrSetType | ErrBudget | ErrUsage | ErrCommand

  /** Go returns a value and an error side by side; an index out of range is a panic. */
  datatype Outcome = Outcome(value: Json, err: Option<IJsonError>) | Panic

  datatype Combine = Replace | ArrayAppend

  /** Budget 0 is unlimited. */
  datatype SetPathOpts = SetPathOpts(budget: int, force: bool, remove: bool, combine: Combine)

  const PLAIN := SetPathOpts(0, false, false, Replace)

  // ----- reading -----

  /** getPathInternal */
  function GetPath(data: Json, path: Path): (r: (Json, Option<IJsonError>))
    decreases |path|
  {
    if data == Null then (Null, None)
    else if path == [] then (data, None)
    else
      match path[0]
      case Key(k) =>
        if data.Obj? then GetPath(if k in data.fields then data.fields[k] else Null, path[1..]) else (Null, None)
      case Index(i) =>
        if i < 0 then (Null, Some(ErrPath))
        else if data.Arr? && i < |data.elems| then GetPath(data.elems[i], path[1..])
        else (Null, None)
      case BadElem => (Null, Some(ErrPath))
  }

  // ----- writing -----

  /** checkAndModifyBudget: whether the cost is covered, and the budget that is left. */
  function CheckBudget(budget: int, cost: int): (bool, int) {
    if budget == 0 then (true, 0)
    else
      var left := budget - cost;
      if left < 0 then (false, left) else if left == 0 then (true, -1) else (true, left)
  }

  function Nulls(n: nat): seq<Json> {
    seq(n, i => Null)
  }

  /** CombineFn_ArrayAppend */
  function AppendTo(data: Json, value: Json, opts: SetPathOpts): Outcome {
    if !CheckBudget(opts.budget, 1).0 then Outcome(Null, Some(ErrBudget))
    else if data == Null then Outcome(Arr([value]), None)
    else if data.Arr? then Outcome(Arr(data.elems + [value]), None)
    else if opts.force then Outcome(Arr([value]), None)
    else Outcome(Null, Some(ErrSetType))
  }

  function ObjOrNull(m: map<string, Json>): Json {
    if m == map[] then Null else Obj(m)
  }

  function ArrOrNull(elems: seq<Json>): Json {
    if elems == [] then Null else Arr(elems)
  }

  /** setPathInternal; `path` is the part of the path from the current index on. */
  function SetPathInternal(data: Json, path: Path, value: Json, opts: SetPathOpts): Outcome
    decreases |path|, 1
  {
    if path == [] then
      if opts.combine == ArrayAppend then AppendTo(data, value, opts) else Outcome(value, None)
    else
      match path[0]
      case Key(k) =>
        if data == Null && opts.remove then Outcome(Null, None)
        else if data != Null && !data.Obj? && !opts.force then Outcome(Null, Some(ErrSetType))
        else SetInMap(if data.Obj? then data.fields else map[], k, path[1..], value, opts)
      case Index(i) =>
        if i < 0 then Outcome(Null, Some(ErrPath))
        else if data == Null && opts.remove then Outcome(Null, None)
        else if data != Null && !data.Arr? && !opts.force then Outcome(Null, Some(ErrSetType))
        else if data.Arr? then SetInArr(data.elems, i, path[1..], value, opts)
        else if opts.remove then Outcome(Null, None)
        else
          var (ok, left) := CheckBudget(opts.budget, i + 1);
          if !ok then Outcome(Null, Some(ErrBudget))
          else SetInArr(Nulls(i + 1), i, path[1..], value, opts.(budget := left))
      case BadElem => Outcome(Null, Some(ErrPath))
  }

  function SetInMap(m: map<string, Json>, k: string, rest: Path, value: Json, opts: SetPathOpts): Outcome
    decreases |rest| + 1, 0
  {
    if opts.remove && rest == [] then Outcome(ObjOrNull(m - {k}), None)
    else if k !in m && opts.remove then Outcome(Obj(m), None)
    else
      var (ok, left) := if k in m then (true, opts.budget) else CheckBudget(opts.budget, 1);
      if !ok then Outcome(Null, Some(ErrBudget))
      else
        var r := SetPathInternal(if k in m then m[k] else Null, rest, value, opts.(budget := left));
        if r.Panic? then Panic
        else if opts.remove && r.value == Null then Outcome(ObjOrNull(m - {k}), None)
        else Outcome(Obj(m[k := r.value]), r.err)
  }

  function SetInArr(a: seq<Json>, i: nat, rest: Path, value: Json, opts: SetPathOpts): Outcome
    decreases |rest| + 1, 0
  {
    if opts.remove && rest == [] then
      if i == |a| - 1 then Outcome(ArrOrNull(a[..i]), None)
      else if i < |a| then Outcome(Arr(a[i := Null]), None)
      else Panic
    else if opts.remove && i >= |a| then Outcome(Null, None)
    else
      var (ok, left) := CheckBudget(opts.budget, i + 1 - |a|);
      if !ok then Outcome(Null, Some(ErrBudget))
      else
        var grown := if |a| <= i then a + Nulls(i + 1 - |a|) else a;
        var r := SetPathInternal(grown[i], rest, value, opts.(budget := left));
        if r.Panic? then Panic
        else if opts.remove && r.value == Null && i == |grown| - 1 then Outcome(ArrOrNull(grown[..i]), None)
        else Outcome(Arr(grown[i := r.value]), r.err)
  }

  /** SetPath */
  function SetPath(data: Json, path: Path, value: Json, opts: SetPathOpts): Outcome {
    if opts.remove && opts.combine != Replace then Outcome(Null, Some(ErrUsage))
    else if opts.remove && value != Null then Outcome(Null, Some(ErrUsage))
    else SetPathInternal(data, path, value, opts)
  }

  predicate Succeeds(r: Outcome) {
    r.Outcome? && r.err.None?
  }

  // ----- laws of set -----

  /** Only string keys and non-negative indices. */
  predicate ValidPath(path: Path) {
    forall j :: 0 <= j < |path| ==> path[j].Key? || (path[j].Index? && path[j].i >= 0)
  }

  predicate KeyPath(path: Path) {
    forall j :: 0 <= j < |path| ==> path[j].Key?
  }

  /** One level of a set that does not remove: the child that is replaced and the budget left for it,
      or nothing if this level fails. */
  function Descend(data: Json, e: PathElem, opts: SetPathOpts): Option<(Json, int)> {
    match e
    case Key(k) =>
      if data != Null && !data.Obj? && !opts.force then None
      else if data.Obj? && k in data.fields then Some((data.fields[k], opts.budget))
      else
        var (ok, left) := CheckBudget(opts.budget, 1);
        if ok then Some((Null, left)) else None
    case Index(i) =>
      if i < 0 || (data != Null && !data.Arr? && !opts.force) then None
      else if data.Arr? then
        var (ok, left) := CheckBudget(opts.budget, i + 1 - |data.elems|);
        if !ok then None else Some((if i < |data.elems| then data.elems[i] else Null, left))
      else
        var (ok1, left1) := CheckBudget(opts.budget, i + 1);
        var (ok2, left2) := CheckBudget(left1, 0);
        if ok1 && ok2 then Some((Null, left2)) else None
    case BadElem => None
  }

  /** The container with its child at e replaced. */
  function Rebuild(data: Json, e: PathElem, child: Json): Json {
    match e
    case Key(k) => Obj((if data.Obj? then data.fields else map[])[k := child])
    case Index(i) =>
      var a := if data.Arr? then data.elems else [];
      if i < 0 then Null
      else if i < |a| then Arr(a[i := child])
      else Arr(a + Nulls(i - |a|) + [child])
    case BadElem => Null
  }

  /** A set that does not remove works level by level: descend, set, rebuild. */
  lemma SetUnfolds(data: Json, path: Path, value: Json, opts: SetPathOpts)
    requires path != [] && !opts.remove
    ensures
      var d := Descend(data, path[0], opts);
      var r := SetPathInternal(data, path, value, opts);
      if d.None? then r.Outcome? && r.err.Some? && r.value == Null
      else
        var sub := SetPathInternal(d.value.0, path[1..], value, opts.(budget := d.value.1));
        if sub.Panic? then r == Panic else r == Outcome(Rebuild(data, path[0], sub.value), sub.err)
  {
    hide SetPathInternal, Descend, Rebuild;
    match path[0]
    case Key(k) =>
      KeyUnfolds(data, path, value, opts);
    case Index(i) =>
      if i < 0 {
        BadUnfolds(data, path, value, opts);
      } else if data.Arr? {
        OldArrUnfolds(data, i, path, value, opts);
      } else {
        NewArrUnfolds(data, i, path, value, opts);
      }
    case BadElem =>
      BadUnfolds(data, path, value, opts);
  }

  lemma BadUnfolds(data: Json, path: Path, value: Json, opts: SetPathOpts)
    requires path != [] && (path[0].BadElem? || (path[0].Index? && path[0].i < 0))
    ensures Descend(data, path[0], opts).None?
    ensures SetPathInternal(data, path, value, opts) == Outcome(Null, Some(ErrPath))
  {
  }

  lemma OldArrUnfolds(data: Json, i: nat, path: Path, value: Json, opts: SetPathOpts)
    requires path != [] && path[0] == Index(i) && !opts.remove && data.Arr?
    ensures
      var d := Descend(data, path[0], opts);
      var r := SetPathInternal(data, path, value, opts);
      if d.None? then r.Outcome? && r.err.Some? && r.value == Null
      else
        var sub := SetPathInternal(d.value.0, path[1..], value, opts.(budget := d.value.1));
        if sub.Panic? then r == Panic else r == Outcome(Rebuild(data, path[0], sub.value), sub.err)
  {
    ArrUnfolds(data.elems, i, path[1..], value, opts);
    assert SetPathInternal(data, path, value, opts) == SetInArr(data.elems, i, path[1..], value, opts);
    hide SetInArr, SetPathInternal;
  }

  lemma KeyUnfolds(data: Json, path: Path, value: Json, opts: SetPathOpts)
    requires path != [] && path[0].Key? && !opts.remove
    ensures
      var d := Descend(data, path[0], opts);
      var r := SetPathInternal(data, path, value, opts);
      if d.None? then r.Outcome? && r.err.Some? && r.value == Null
      else
        var sub := SetPathInternal(d.value.0, path[1..], value, opts.(budget := d.value.1));
        if sub.Panic? then r == Panic else r == Outcome(Rebuild(data, path[0], sub.value), sub.err)
  {
  }

  lemma NewArrUnfolds(data: Json, i: nat, path: Path, value: Json, opts: SetPathOpts)
    requires path != [] && path[0] == Index(i) && !opts.remove && !data.Arr?
    ensures
      var d := Descend(data, path[0], opts);
      var r := SetPathInternal(data, path, value, opts);
      if d.None? then r.Outcome? && r.err.Some? && r.value == Null
      else
        var sub := SetPathInternal(d.value.0, path[1..], value, opts.(budget := d.value.1));
        if sub.Panic? then r == Panic else r == Outcome(Rebuild(data, path[0], sub.value), sub.err)
  {
    var left := CheckBudget(opts.budget, i + 1).1;
    var left2 := CheckBudget(left, 0).1;
    ArrUnfolds(Nulls(i + 1), i, path[1..], value, opts.(budget := left));
    assert opts.(budget := left).(budget := left2) == opts.(budget := left2);
    hide SetInArr;
    var sub := SetPathInternal(Null, path[1..], value, opts.(budget := left2));
    if sub.Outcome? {
      assert Nulls(i + 1)[i := sub.value] == [] + Nulls(i) + [sub.value];
    }
  }

  lemma ArrUnfolds(a: seq<Json>, i: nat, rest: Path, value: Json, opts: SetPathOpts)
    requires !opts.remove
    ensures
      var (ok, left) := CheckBudget(opts.budget, i + 1 - |a|);
      var r := SetInArr(a, i, rest, value, opts);
      if !ok then r == Outcome(Null, Some(ErrBudget))
      else
        var sub := SetPathInternal(if i < |a| then a[i] else Null, rest, value, opts.(budget := left));
        if sub.Panic? then r == Panic
        else r == Outcome(if i < |a| then Arr(a[i := sub.value]) else Arr(a + Nulls(i - |a|) + [sub.value]), sub.err)
  {
    if |a| <= i {
      var grown := a + Nulls(i + 1 - |a|);
      var left := CheckBudget(opts.budget, i + 1 - |a|).1;
      var sub := SetPathInternal(Null, rest, value, opts.(budget := left));
      assert grown[i] == Null;
      if sub.Outcome? {
        assert grown[i := sub.value] == a + Nulls(i - |a|) + [sub.value];
      }
    }
  }

  lemma {:induction false} SetNeverPanics(data: Json, path: Path, value: Json, opts: SetPathOpts)
    requires !opts.remove
    ensures SetPathInternal(data, path, value, opts).Outcome?
    decreases |path|
  {
    if path != [] {
      SetUnfolds(data, path, value, opts);
      var d := Descend(data, path[0], opts);
      if d.Some? {
        SetNeverPanics(d.value.0, path[1..], value, opts.(budget := d.value.1));
      }
    }
  }

  /** Set, then get: the path leads to the value. */
  lemma {:induction false} SetThenGet(data: Json, path: Path, value: Json, opts: SetPathOpts)
    requires !opts.remove && opts.combine == Replace
    requires Succeeds(SetPathInternal(data, path, value, opts))
    ensures GetPath(SetPathInternal(data, path, value, opts).value, path) == (value, None)
    decreases |path|
  {
    if path != [] {
      SetUnfolds(data, path, value, opts);
      var d := Descend(data, path[0], opts).value;
      SetThenGet(d.0, path[1..], value, opts.(budget := d.1));
    }
  }

  /** Append, then get: the path leads to the old array, or to an empty one, with the value at its end. */
  lemma {:induction false} AppendThenGet(data: Json, path: Path, value: Json, opts: SetPathOpts)
    requires !opts.remove && opts.combine == ArrayAppend
    requires Succeeds(SetPathInternal(data, path, value, opts))
    ensures
      var was := GetPath(data, path).0;
      GetPath(SetPathInternal(data, path, value, opts).value, path) ==
          (Arr((if was.Arr? then was.elems else []) + [value]), None)
    decreases |path|
  {
    if path == [] {
      assert [] + [value] == [value];
    } else {
      SetUnfolds(data, path, value, opts);
      var d := Descend(data, path[0], opts).value;
      AppendThenGet(d.0, path[1..], value, opts.(budget := d.1));
    }
  }

  /** A set that fails half way still writes: nil is stored at the level that failed, so whatever the
      path led to is gone. */
  lemma {:induction false} FailedSetErases(data: Json, path: Path, value: Json, opts: SetPathOpts)
    requires !opts.remove && ValidPath(path)
    ensures
      var r := SetPathInternal(data, path, value, opts);
      r.Outcome? && (r.err.Some? ==> GetPath(r.value, path) == (Null, None))
    decreases |path|
  {
    if path != [] {
      SetUnfolds(data, path, value, opts);
      var d := Descend(data, path[0], opts);
      if d.Some? {
        FailedSetErases(d.value.0, path[1..], value, opts.(budget := d.value.1));
      }
    }
  }

  /** The last set at a path wins. */
  lemma {:induction false} SetThenSet(data: Json, path: Path, v: Json, w: Json, opts: SetPathOpts)
    requires !opts.remove && opts.combine == Replace
    requires Succeeds(SetPathInternal(data, path, v, opts))
    ensures
      var first := SetPathInternal(data, path, v, opts).value;
      && Succeeds(SetPathInternal(data, path, w, opts))
      && SetPathInternal(first, path, w, PLAIN) == SetPathInternal(data, path, w, opts)
    decreases |path|
  {
    if path != [] {
      SetUnfolds(data, path, v, opts);
      SetUnfolds(data, path, w, opts);
      var d := Descend(data, path[0], opts).value;
      SetThenSet(d.0, path[1..], v, w, opts.(budget := d.1));
      var sub := SetPathInternal(d.0, path[1..], v, opts.(budget := d.1)).value;
      var first := Rebuild(data, path[0], sub);
      SetUnfolds(first, path, w, PLAIN);
      RebuildTwice(data, path[0], sub, SetPathInternal(d.0, path[1..], w, opts.(budget := d.1)).value, opts);
    }
  }

  lemma RebuildTwice(data: Json, e: PathElem, sub: Json, child: Json, opts: SetPathOpts)
    requires Descend(data, e, opts).Some?
    ensures Descend(Rebuild(data, e, sub), e, PLAIN) == Some((sub, 0))
    ensures Rebuild(Rebuild(data, e, sub), e, child) == Rebuild(data, e, child)
  {
    if e.Index? {
      var a := if data.Arr? then data.elems else [];
      if e.i >= |a| {
        var b := a + Nulls(e.i - |a|) + [sub];
        assert b[e.i := child] == a + Nulls(e.i - |a|) + [child];
      }
    }
  }

  /** Neither path leads through the end of the other. */
  predicate DisjointPaths(p: Path, q: Path) {
    exists j :: 0 <= j < |p| && j < |q| && p[j] != q[j] && p[..j] == q[..j]
  }

  /** A set without Force leaves every disjoint path as it was. */
  lemma {:induction false} SetKeepsOthers(data: Json, path: Path, value: Json, opts: SetPathOpts, q: Path)
    requires !opts.remove && !opts.force && ValidPath(q) && DisjointPaths(path, q)
    requires Succeeds(SetPathInternal(data, path, value, opts))
    ensures GetPath(SetPathInternal(data, path, value, opts).value, q) == GetPath(data, q)
    decreases |path|
  {
    SetUnfolds(data, path, value, opts);
    var d := Descend(data, path[0], opts).value;
    var sub := SetPathInternal(d.0, path[1..], value, opts.(budget := d.1)).value;
    var j :| 0 <= j < |path| && j < |q| && path[j] != q[j] && path[..j] == q[..j];
    if j == 0 {
      OtherChildKept(data, path[0], sub, q, opts);
    } else {
      assert path[..j][0] == q[..j][0];
      assert path[1..][..j - 1] == path[..j][1..] && q[1..][..j - 1] == q[..j][1..];
      assert path[1..][j - 1] == path[j] && q[1..][j - 1] == q[j];
      SetKeepsOthers(d.0, path[1..], value, opts.(budget := d.1), q[1..]);
      SameChild(data, path[0], sub, q, opts);
    }
  }

  lemma OtherChildKept(data: Json, e: PathElem, sub: Json, q: Path, opts: SetPathOpts)
    requires !opts.force && Descend(data, e, opts).Some? && q != [] && ValidPath(q) && q[0] != e
    ensures GetPath(Rebuild(data, e, sub), q) == GetPath(data, q)
  {
    assert q[0].Key? || (q[0].Index? && q[0].i >= 0);
  }

  lemma SameChild(data: Json, e: PathElem, sub: Json, q: Path, opts: SetPathOpts)
    requires !opts.force && Descend(data, e, opts).Some? && q != [] && ValidPath(q) && q[0] == e
    ensures GetPath(Rebuild(data, e, sub), q) == GetPath(sub, q[1..])
    ensures GetPath(data, q) == GetPath(Descend(data, e, opts).value.0, q[1..])
  {
  }

  // ----- the budget -----

  /** Along a string-key path the data is a map or nil at every level. */
  predicate KeyTyped(data: Json, path: Path)
    decreases |path|
  {
    path == [] || (path[0].Key? && (data == Null || data.Obj?) &&
                   KeyTyped(if data.Obj? && path[0].k in data.fields then data.fields[path[0].k] else Null, path[1..]))
  }

  /** The value at the end of a string-key path. */
  function LeafOf(data: Json, path: Path): Json
    decreases |path|
  {
    if path == [] then data
    else
      LeafOf(if path[0].Key? && data.Obj? && path[0].k in data.fields then data.fields[path[0].k] else Null, path[1..])
  }

  /** How many map entries a set along a string-key path creates. */
  function NewEntries(data: Json, path: Path): nat
    decreases |path|
  {
    if path == [] then 0
    else if path[0].Key? && data.Obj? && path[0].k in data.fields then NewEntries(data.fields[path[0].k], path[1..])
    else 1 + NewEntries(Null, path[1..])
  }

  /** The budget is exact: over the whole recursion, and in spite of the -1 that stands for an
      exhausted budget, a well-typed set succeeds if and only if it is unlimited or covers the new
      entries, one more for an append. */
  lemma {:induction false} BudgetIsExact(data: Json, path: Path, value: Json, opts: SetPathOpts)
    requires !opts.remove && KeyTyped(data, path)
    requires opts.combine == ArrayAppend && !opts.force ==> LeafOf(data, path) == Null || LeafOf(data, path).Arr?
    ensures Succeeds(SetPathInternal(data, path, value, opts)) <==>
              opts.budget == 0 ||
              NewEntries(data, path) + (if opts.combine == ArrayAppend then 1 else 0) <= Max(opts.budget, 0)
    decreases |path|
  {
    if path != [] {
      SetUnfolds(data, path, value, opts);
      SetNeverPanics(data, path, value, opts);
      var d := Descend(data, path[0], opts);
      if d.Some? {
        BudgetIsExact(d.value.0, path[1..], value, opts.(budget := d.value.1));
        SetNeverPanics(d.value.0, path[1..], value, opts.(budget := d.value.1));
      }
    }
  }

  /** A budget only decides whether a set succeeds, not what it makes. */
  lemma {:induction false} BudgetOnlyRefuses(data: Json, path: Path, value: Json, opts: SetPathOpts)
    requires !opts.remove && Succeeds(SetPathInternal(data, path, value, opts))
    ensures SetPathInternal(data, path, value, opts) == SetPathInternal(data, path, value, opts.(budget := 0))
    decreases |path|
  {
    if path != [] {
      var free := opts.(budget := 0);
      SetUnfolds(data, path, value, opts);
      SetUnfolds(data, path, value, free);
      var d := Descend(data, path[0], opts).value;
      assert Descend(data, path[0], free) == Some((d.0, 0));
      assert opts.(budget := d.1).(budget := 0) == free;
      BudgetOnlyRefuses(d.0, path[1..], value, opts.(budget := d.1));
    }
  }

  /** Arrays are where it is not: setting below element i of an array refunds the length of what
      follows that element. */
  lemma ArrayRefundsBudget(a: seq<Json>, i: nat, path: Path, value: Json, budget: int)
    requires i < |a| && budget > 0 && KeyTyped(a[i], path)
    ensures Succeeds(SetPathInternal(Arr(a), [Index(i)] + path, value, SetPathOpts(budget, false, false, Replace))) <==>
              NewEntries(a[i], path) <= budget + (|a| - 1 - i)
  {
    var opts, whole := SetPathOpts(budget, false, false, Replace), [Index(i)] + path;
    var left := budget + (|a| - 1 - i);
    assert whole[1..] == path && whole[0] == Index(i);
    SetUnfolds(Arr(a), whole, value, opts);
    assert Descend(Arr(a), Index(i), opts) == Some((a[i], left));
    BudgetIsExact(a[i], path, value, opts.(budget := left));
    SetNeverPanics(a[i], path, value, opts.(budget := left));
  }
}
