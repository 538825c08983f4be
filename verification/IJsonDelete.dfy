/** What `del` does, for all data and all paths. */
module IJsonDelete {
  import opened Basics
  import opened IJson

  const DEL := SetPathOpts(0, false, true, Replace)

  /** del as a set that removes. */
  function Del(data: Json, path: Path): Outcome {
    SetPathInternal(data, path, Null, DEL)
  }

  /** A delete never costs anything, so a budget makes no difference. */
  lemma {:induction false} DelIgnoresBudget(data: Json, path: Path, budget: nat)
    ensures SetPathInternal(data, path, Null, DEL.(budget := budget)) == Del(data, path)
    decreases |path|
  {
    if path != [] {
      var opts := DEL.(budget := budget);
      match path[0]
      case Key(k) =>
        if data.Obj? {
          assert opts.(budget := opts.budget) == opts && DEL.(budget := DEL.budget) == DEL;
          assert SetPathInternal(data, path, Null, opts) == SetInMap(data.fields, k, path[1..], Null, opts);
          assert Del(data, path) == SetInMap(data.fields, k, path[1..], Null, DEL);
          if k in data.fields {
            DelIgnoresBudget(data.fields[k], path[1..], budget);
          }
        }
      case Index(i) =>
        if i >= 0 && data.Arr? {
          assert SetPathInternal(data, path, Null, opts) == SetInArr(data.elems, i, path[1..], Null, opts);
          assert Del(data, path) == SetInArr(data.elems, i, path[1..], Null, DEL);
          if i < |data.elems| {
            DelIgnoresBudget(data.elems[i], path[1..], CheckBudget(budget, i + 1 - |data.elems|).1);
          }
        }
      case BadElem =>
    }
  }

  // ----- one level -----

  /** One level of a delete at a key. */
  lemma DelUnfolds(data: Json, path: Path)
    requires path != [] && path[0].Key?
    ensures
      var k := path[0].k;
      if data == Null then Del(data, path) == Outcome(Null, None)
      else if !data.Obj? then Del(data, path) == Outcome(Null, Some(ErrSetType))
      else if |path| == 1 then Del(data, path) == Outcome(ObjOrNull(data.fields - {k}), None)
      else if k !in data.fields then Del(data, path) == Outcome(data, None)
      else
        var sub := Del(data.fields[k], path[1..]);
        if sub.Panic? then Del(data, path) == Panic
        else if sub.value == Null then Del(data, path) == Outcome(ObjOrNull(data.fields - {k}), None)
        else Del(data, path) == Outcome(Obj(data.fields[k := sub.value]), sub.err)
  {
    var k, rest := path[0].k, path[1..];
    if data.Obj? {
      assert Del(data, path) == SetInMap(data.fields, k, rest, Null, DEL);
      assert rest == [] <==> |path| == 1;
      assert DEL.(budget := DEL.budget) == DEL;
    }
  }

  /** One level of a delete at an index. */
  lemma DelUnfoldsAt(data: Json, path: Path)
    requires path != [] && path[0].Index?
    ensures
      var i := path[0].i;
      if i < 0 then Del(data, path) == Outcome(Null, Some(ErrPath))
      else if data == Null then Del(data, path) == Outcome(Null, None)
      else if !data.Arr? then Del(data, path) == Outcome(Null, Some(ErrSetType))
      else
        var a := data.elems;
        if |path| == 1 then
          Del(data, path) == if i == |a| - 1 then Outcome(ArrOrNull(a[..i]), None)
                             else if i < |a| then Outcome(Arr(a[i := Null]), None) else Panic
        else if i >= |a| then Del(data, path) == Outcome(Null, None)
        else
          var sub := Del(a[i], path[1..]);
          if sub.Panic? then Del(data, path) == Panic
          else if sub.value == Null && i == |a| - 1 then Del(data, path) == Outcome(ArrOrNull(a[..i]), None)
          else Del(data, path) == Outcome(Arr(a[i := sub.value]), sub.err)
  {
    var i := path[0].i;
    if i >= 0 && data.Arr? {
      assert Del(data, path) == SetInArr(data.elems, i, path[1..], Null, DEL);
    }
  }

  // ----- panics, errors, and deletes that leave nothing -----

  /** The delete ends at an index past the end of an existing array. */
  predicate EndsPastArray(data: Json, path: Path)
    decreases |path|
  {
    && path != []
    && match path[0]
       case Key(k) => |path| > 1 && data.Obj? && k in data.fields && EndsPastArray(data.fields[k], path[1..])
       case Index(i) =>
         && 0 <= i && data.Arr?
         && (if |path| == 1 then i >= |data.elems| else i < |data.elems| && EndsPastArray(data.elems[i], path[1..]))
       case BadElem => false
  }

  /** Exactly when a delete panics. */
  lemma {:induction false} DelPanicsIff(data: Json, path: Path)
    ensures Del(data, path).Panic? <==> EndsPastArray(data, path)
    decreases |path|
  {
    if path != [] {
      match path[0]
      case Key(k) =>
        DelUnfolds(data, path);
        if data.Obj? && |path| > 1 && k in data.fields {
          DelPanicsIff(data.fields[k], path[1..]);
        }
      case Index(i) =>
        DelUnfoldsAt(data, path);
        if 0 <= i && data.Arr? && i < |data.elems| && |path| > 1 {
          DelPanicsIff(data.elems[i], path[1..]);
        }
      case BadElem =>
    }
  }

  /** The delete leaves nil in place of the data: it empties every container on the path from the
      inside out, or stops at an element that does not fit the data. */
  predicate Vanishes(data: Json, path: Path)
    decreases |path|
  {
    || path == [] || data == Null
    || match path[0]
       case Key(k) =>
         if !data.Obj? then true
         else if |path| == 1 then data.fields - {k} == map[]
         else k in data.fields && data.fields - {k} == map[] && Vanishes(data.fields[k], path[1..])
       case Index(i) =>
         if i < 0 || !data.Arr? then true
         else if i >= |data.elems| then |path| > 1
         else i == 0 && |data.elems| == 1 && (|path| == 1 || Vanishes(data.elems[0], path[1..]))
       case BadElem => true
  }

  lemma {:induction false} VanishesIff(data: Json, path: Path)
    requires !EndsPastArray(data, path)
    ensures Del(data, path).Outcome? && (Del(data, path).value == Null <==> Vanishes(data, path))
    decreases |path|
  {
    DelPanicsIff(data, path);
    if path != [] {
      match path[0]
      case Key(k) =>
        DelUnfolds(data, path);
        if data.Obj? && |path| > 1 && k in data.fields {
          VanishesIff(data.fields[k], path[1..]);
        }
      case Index(i) =>
        DelUnfoldsAt(data, path);
        if 0 <= i && data.Arr? && i < |data.elems| && |path| > 1 {
          VanishesIff(data.elems[i], path[1..]);
        }
      case BadElem =>
    }
  }

  /** The delete meets an element that does not fit the data, and every container above it keeps
      something else, or is an array in which more follows. */
  predicate DelFails(data: Json, path: Path)
    decreases |path|
  {
    && path != []
    && match path[0]
       case Key(k) =>
         if !data.Obj? then data != Null
         else
           && |path| > 1 && k in data.fields
           && DelFails(data.fields[k], path[1..]) && !Vanishes(data.fields[k], path[1..])
       case Index(i) =>
         if i < 0 then true
         else if !data.Arr? then data != Null
         else
           && |path| > 1 && i < |data.elems| && DelFails(data.elems[i], path[1..])
           && !(i == |data.elems| - 1 && Vanishes(data.elems[i], path[1..]))
       case BadElem => true
  }

  /** Exactly when a delete reports an error. */
  lemma {:induction false} DelFailsIff(data: Json, path: Path)
    requires !EndsPastArray(data, path)
    ensures Del(data, path).Outcome? && (Del(data, path).err.Some? <==> DelFails(data, path))
    decreases |path|
  {
    VanishesIff(data, path);
    if path != [] {
      match path[0]
      case Key(k) =>
        DelUnfolds(data, path);
        if data.Obj? && |path| > 1 && k in data.fields {
          DelFailsIff(data.fields[k], path[1..]);
          VanishesIff(data.fields[k], path[1..]);
        }
      case Index(i) =>
        DelUnfoldsAt(data, path);
        if 0 <= i && data.Arr? && i < |data.elems| && |path| > 1 {
          DelFailsIff(data.elems[i], path[1..]);
          VanishesIff(data.elems[i], path[1..]);
        }
      case BadElem =>
    }
  }

  // ----- deletes that stop below a key -----

  /** Every key of the path is there. */
  predicate Reached(data: Json, path: Path)
    decreases |path|
  {
    path == [] || (path[0].Key? && data.Obj? && path[0].k in data.fields && Reached(data.fields[path[0].k], path[1..]))
  }

  function ValueAt(data: Json, path: Path): Json
    requires Reached(data, path)
    decreases |path|
  {
    if path == [] then data else ValueAt(data.fields[path[0].k], path[1..])
  }

  /** A delete whose part below a key leaves nothing, be it because everything there goes or because
      of an error, is the delete of that key: at any depth, for all data, and with success. */
  lemma {:induction false} DelStopsAtKey(data: Json, prefix: Path, rest: Path)
    requires prefix != [] && rest != [] && Reached(data, prefix)
    requires !EndsPastArray(ValueAt(data, prefix), rest) && Vanishes(ValueAt(data, prefix), rest)
    ensures Del(data, prefix + rest) == Del(data, prefix) && Del(data, prefix).Outcome? && Del(data, prefix).err.None?
    decreases |prefix|
  {
    var k, path := prefix[0].k, prefix + rest;
    assert path[0] == prefix[0] && path[1..] == prefix[1..] + rest;
    DelUnfolds(data, path);
    DelUnfolds(data, prefix);
    if |prefix| == 1 {
      assert prefix[1..] + rest == rest;
      VanishesIff(data.fields[k], rest);
    } else {
      DelStopsAtKey(data.fields[k], prefix[1..], rest);
    }
  }

  /** One level of it: an error below that leaves nothing is swallowed, and the key goes. */
  lemma DelSwallowsError(m: map<string, Json>, k: string, rest: Path)
    requires k in m && rest != []
    requires Del(m[k], rest).Outcome? && Del(m[k], rest).err.Some? && Vanishes(m[k], rest)
    ensures Del(Obj(m), [Key(k)] + rest) == Outcome(ObjOrNull(m - {k}), None)
  {
    assert ([Key(k)] + rest)[1..] == rest && [Key(k)][1..] == [];
    DelPanicsIff(m[k], rest);
    assert Reached(m[k], []);
    assert Reached(Obj(m), [Key(k)]) && ValueAt(Obj(m), [Key(k)]) == m[k];
    DelStopsAtKey(Obj(m), [Key(k)], rest);
    DelUnfolds(Obj(m), [Key(k)]);
  }

  /** Along string keys an error always leaves nothing; so below the root there are none. */
  lemma {:induction false} DelOnKeys(data: Json, path: Path)
    requires path != [] && KeyPath(path)
    ensures !EndsPastArray(data, path)
    ensures DelFails(data, path) <==> data != Null && !data.Obj?
    ensures DelFails(data, path) ==> Vanishes(data, path)
    decreases |path|
  {
    if data.Obj? && |path| > 1 && path[0].k in data.fields {
      DelOnKeys(data.fields[path[0].k], path[1..]);
    }
  }

  /** A deleted string-key path reads as nil. */
  lemma {:induction false} DelThenGet(data: Json, path: Path)
    requires path != [] && KeyPath(path)
    ensures Del(data, path).Outcome? && GetPath(Del(data, path).value, path) == (Null, None)
    decreases |path|
  {
    DelOnKeys(data, path);
    DelFailsIff(data, path);
    DelUnfolds(data, path);
    if data.Obj? && |path| > 1 && path[0].k in data.fields {
      DelThenGet(data.fields[path[0].k], path[1..]);
    }
  }

  // ----- what else a delete takes with it -----

  /** Something can be read directly below the value. */
  predicate HasContent(data: Json) {
    || (data.Obj? && exists k :: k in data.fields && data.fields[k] != Null)
    || (data.Arr? && exists i :: 0 <= i < |data.elems| && data.elems[i] != Null)
  }

  /** The delete reaches a container with content that its next element does not fit: a map where the
      path has an index, an array where it has a key or an index past the end of the array, or either
      where it has anything else. Scalars on the way lose nothing. */
  predicate Loses(data: Json, path: Path)
    decreases |path|
  {
    && path != []
    && match path[0]
       case Key(k) =>
         if data.Obj? then |path| > 1 && k in data.fields && Loses(data.fields[k], path[1..]) else HasContent(data)
       case Index(i) =>
         if i < 0 || !data.Arr? then HasContent(data)
         else if i >= |data.elems| then |path| > 1 && HasContent(data)
         else |path| > 1 && Loses(data.elems[i], path[1..])
       case BadElem => HasContent(data)
  }

  ghost predicate KeepsOthers(data: Json, after: Json, path: Path) {
    forall q :: ValidPath(q) && DisjointPaths(path, q) ==> GetPath(after, q) == GetPath(data, q)
  }

  lemma DisjointTails(p: Path, q: Path)
    requires p != [] && q != [] && p[0] == q[0]
    ensures DisjointPaths(p, q) <==> DisjointPaths(p[1..], q[1..])
  {
    if DisjointPaths(p, q) {
      var j :| 0 <= j < |p| && j < |q| && p[j] != q[j] && p[..j] == q[..j];
      assert PartAt(p, q, j);
      PartAtTail(p, q, j - 1);
    }
    if DisjointPaths(p[1..], q[1..]) {
      var j :| 0 <= j < |p[1..]| && j < |q[1..]| && p[1..][j] != q[1..][j] && p[1..][..j] == q[1..][..j];
      assert PartAt(p[1..], q[1..], j);
      PartAtTail(p, q, j);
    }
  }

  predicate PartAt(p: Path, q: Path, j: nat) {
    j < |p| && j < |q| && p[j] != q[j] && p[..j] == q[..j]
  }

  lemma PartAtTail(p: Path, q: Path, j: nat)
    requires p != [] && q != [] && p[0] == q[0]
    ensures PartAt(p[1..], q[1..], j) <==> PartAt(p, q, j + 1)
  {
    if j < |p[1..]| && j < |q[1..]| {
      assert p[..j + 1] == [p[0]] + p[1..][..j] && q[..j + 1] == [q[0]] + q[1..][..j];
      if p[..j + 1] == q[..j + 1] {
        assert p[1..][..j] == p[..j + 1][1..] && q[1..][..j] == q[..j + 1][1..];
      }
    }
  }

  lemma NoContent(data: Json, q: Path)
    requires !HasContent(data) && q != [] && ValidPath(q)
    ensures GetPath(data, q) == (Null, None)
  {
    assert q[0].Key? || q[0].i >= 0;
  }

  lemma DropKeepsOther(m: map<string, Json>, k: string, q: Path)
    requires q != [] && ValidPath(q) && q[0] != Key(k)
    ensures GetPath(ObjOrNull(m - {k}), q) == GetPath(Obj(m), q)
  {
    assert q[0].Key? || (q[0].Index? && q[0].i >= 0);
    if q[0].Key? && q[0].k in m {
      assert q[0].k in m - {k};
    }
  }

  /** A path that parts from the deleted one at this level. */
  lemma SiblingStays(data: Json, path: Path, q: Path)
    requires path != [] && q != [] && path[0] != q[0] && ValidPath(q)
    requires !EndsPastArray(data, path) && !Loses(data, path)
    ensures Del(data, path).Outcome? && GetPath(Del(data, path).value, q) == GetPath(data, q)
  {
    DelPanicsIff(data, path);
    assert q[0].Key? || (q[0].Index? && q[0].i >= 0);
    if !HasContent(data) {
      NoContent(data, q);
    }
    match path[0]
    case Key(k) =>
      DelUnfolds(data, path);
      if data.Obj? {
        DropKeepsOther(data.fields, k, q);
      }
    case Index(i) => DelUnfoldsAt(data, path);
    case BadElem =>
  }

  lemma {:induction false} DelKeepsOther(data: Json, path: Path, q: Path)
    requires !EndsPastArray(data, path) && !Loses(data, path) && ValidPath(q) && DisjointPaths(path, q)
    ensures Del(data, path).Outcome? && GetPath(Del(data, path).value, q) == GetPath(data, q)
    decreases |path|
  {
    if q[0] != path[0] {
      SiblingStays(data, path, q);
    } else {
      DelPanicsIff(data, path);
      DisjointTails(path, q);
      match path[0]
      case Key(k) =>
        DelUnfolds(data, path);
        if data.Obj? && k in data.fields {
          DelKeepsOther(data.fields[k], path[1..], q[1..]);
          assert k !in data.fields - {k};
        }
      case Index(i) =>
        DelUnfoldsAt(data, path);
        if data.Arr? && i < |data.elems| {
          DelKeepsOther(data.elems[i], path[1..], q[1..]);
        }
    }
  }

  /** A path whose value is lost. */
  lemma {:induction false} LostPath(data: Json, path: Path) returns (q: Path)
    requires !EndsPastArray(data, path) && Loses(data, path)
    ensures ValidPath(q) && DisjointPaths(path, q)
    ensures Del(data, path).Outcome? && GetPath(Del(data, path).value, q) != GetPath(data, q)
    decreases |path|
  {
    DelPanicsIff(data, path);
    match path[0] {
      case Key(k) => DelUnfolds(data, path);
      case Index(i) => DelUnfoldsAt(data, path);
      case BadElem =>
    }
    if path[0].Key? && data.Obj? {
      var k := path[0].k;
      var rest := LostPath(data.fields[k], path[1..]);
      q := [path[0]] + rest;
      assert q[1..] == rest && k !in data.fields - {k};
      DisjointTails(path, q);
    } else if path[0].Index? && data.Arr? && 0 <= path[0].i < |data.elems| {
      var rest := LostPath(data.elems[path[0].i], path[1..]);
      q := [path[0]] + rest;
      assert q[1..] == rest;
      DisjointTails(path, q);
    } else {
      q := ContentPath(data);
      assert q[0] != path[0] && path[..0] == q[..0];
    }
  }

  lemma ContentPath(data: Json) returns (q: Path)
    requires HasContent(data)
    ensures ValidPath(q) && |q| == 1 && GetPath(data, q).0 != Null && GetPath(data, q).1.None?
    ensures data.Obj? ==> q[0].Key?
    ensures data.Arr? ==> q[0].Index? && 0 <= q[0].i < |data.elems|
  {
    if data.Obj? {
      var k :| k in data.fields && data.fields[k] != Null;
      q := [Key(k)];
    } else {
      var i :| 0 <= i < |data.elems| && data.elems[i] != Null;
      q := [Index(i)];
    }
    assert q[1..] == [];
  }

  /** Exactly when a delete leaves every disjoint path as it was: whenever it does not lose a
      container. The array that an index past its end drops is one case of this. */
  lemma DelKeepsOthersIff(data: Json, path: Path)
    requires !EndsPastArray(data, path)
    ensures Del(data, path).Outcome? && (KeepsOthers(data, Del(data, path).value, path) <==> !Loses(data, path))
  {
    DelPanicsIff(data, path);
    if Loses(data, path) {
      var q := LostPath(data, path);
    } else {
      forall q | ValidPath(q) && DisjointPaths(path, q)
        ensures GetPath(Del(data, path).value, q) == GetPath(data, q)
      {
        DelKeepsOther(data, path, q);
      }
    }
  }

  /** In particular when every level on the path is a map or nil. */
  lemma {:induction false} KeyTypedLosesNothing(data: Json, path: Path)
    requires KeyTyped(data, path)
    ensures !Loses(data, path) && !EndsPastArray(data, path)
    decreases |path|
  {
    if path != [] && data.Obj? && path[0].k in data.fields {
      KeyTypedLosesNothing(data.fields[path[0].k], path[1..]);
    }
  }

  // ----- pruning -----

  /** No map anywhere in the data is empty. */
  predicate NoEmptyMaps(data: Json) {
    match data
    case Obj(m) => m != map[] && forall k :: k in m ==> NoEmptyMaps(m[k])
    case Arr(a) => forall i :: 0 <= i < |a| ==> NoEmptyMaps(a[i])
    case _ => true
  }

  /** A delete prunes the maps that it empties. */
  lemma {:induction false} DelPrunes(data: Json, path: Path)
    requires !EndsPastArray(data, path) && NoEmptyMaps(data)
    ensures Del(data, path).Outcome? && NoEmptyMaps(Del(data, path).value)
    decreases |path|
  {
    DelPanicsIff(data, path);
    if path != [] {
      match path[0]
      case Key(k) =>
        DelUnfolds(data, path);
        if data.Obj? && |path| > 1 && k in data.fields {
          DelPrunes(data.fields[k], path[1..]);
        }
      case Index(i) =>
        DelUnfoldsAt(data, path);
        if 0 <= i && data.Arr? && i < |data.elems| && |path| > 1 {
          DelPrunes(data.elems[i], path[1..]);
        }
      case BadElem =>
    }
  }

  // ----- elements that no branch accepts -----

  /** A delete whose path has such an element below some keys deletes the last of these keys, and
      reports success; only where that key's map is empty already it leaves everything as it is. */
  lemma {:induction false} BadElemDeletesKey(data: Json, keys: Path, rest: Path)
    requires keys != [] && KeyPath(keys)
    ensures
      Del(data, keys + [BadElem] + rest) ==
      if EmptyMapAt(data, keys) then Outcome(data, None) else Del(data, keys)
    decreases |keys|
  {
    var k, path := keys[0].k, keys + [BadElem] + rest;
    assert path[0] == keys[0] && path[1..] == keys[1..] + [BadElem] + rest;
    DelUnfolds(data, path);
    DelUnfolds(data, keys);
    if data.Obj? {
      if |keys| == 1 {
        assert path[1..] == [BadElem] + rest;
        assert k !in data.fields ==> data.fields - {k} == data.fields;
      } else if k in data.fields {
        var child := data.fields[k];
        BadElemDeletesKey(child, keys[1..], rest);
        assert data.fields[k := child] == data.fields;
      }
    }
  }

  /** The keys but the last lead to an empty map. */
  predicate EmptyMapAt(data: Json, keys: Path)
    decreases |keys|
  {
    && keys != [] && keys[0].Key? && data.Obj?
    && if |keys| == 1 then data.fields == map[]
       else keys[0].k in data.fields && EmptyMapAt(data.fields[keys[0].k], keys[1..])
  }
}
