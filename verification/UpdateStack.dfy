/** The stack of pending object updates that nested transactions keep in a context. */
module UpdateStack {
  import opened Basics

  datatype ORef = ORef(otype: string, oid: string)

  datatype WaveObjUpdate = WaveObjUpdate(updateType: string, otype: string, oid: string, obj: Option<nat>)

  type Updates = map<ORef, WaveObjUpdate>

  function RefOf(u: WaveObjUpdate): ORef {
    ORef(u.otype, u.oid)
  }

  // ----- the simple form -----

  /** What a transaction body does: record an update, or run a nested transaction, which fails or not. */
  datatype Step = Add(update: WaveObjUpdate) | Tx(body: seq<Step>, fails: bool)

  /** All updates of a body in order, each with whether all transactions around it succeed. */
  function AllUpdates(body: seq<Step>, ok: bool): seq<(WaveObjUpdate, bool)>
    decreases body
  {
    if body == [] then []
    else
      (match body[0]
       case Add(u) => [(u, ok)]
       case Tx(inner, fails) => AllUpdates(inner, ok && !fails))
      + AllUpdates(body[1..], ok)
  }

  function Kept(us: seq<(WaveObjUpdate, bool)>): seq<WaveObjUpdate>
    decreases |us|
  {
    if us == [] then []
    else Kept(us[..|us| - 1]) + if us[|us| - 1].1 then [us[|us| - 1].0] else []
  }

  /** The last update of every object, on top of what was there before. */
  function LastWriter(before: Updates, us: seq<WaveObjUpdate>): Updates
    decreases |us|
  {
    if us == [] then before
    else LastWriter(before, us[..|us| - 1])[RefOf(us[|us| - 1]) := us[|us| - 1]]
  }

  lemma {:induction false} LastWriterAppend(before: Updates, a: seq<WaveObjUpdate>, b: seq<WaveObjUpdate>)
    ensures LastWriter(before, a + b) == LastWriter(LastWriter(before, a), b)
    decreases |b|
  {
    if b == [] {
      assert a + b == a;
    } else {
      assert (a + b)[..|a + b| - 1] == a + b[..|b| - 1];
      LastWriterAppend(before, a, b[..|b| - 1]);
    }
  }

  /** Collecting updates apart and merging them later comes to the same. */
  lemma {:induction false} MergeLater(before: Updates, us: seq<WaveObjUpdate>)
    ensures before + LastWriter(map[], us) == LastWriter(before, us)
    decreases |us|
  {
    if us == [] {
      assert before + map[] == before;
    } else {
      MergeLater(before, us[..|us| - 1]);
    }
  }

  predicate IsFor(u: WaveObjUpdate, otype: string, oid: string) {
    u.otype == otype && u.oid == oid
  }

  lemma {:induction false} NoWriterOf(before: Updates, us: seq<WaveObjUpdate>, otype: string, oid: string)
    requires forall i :: 0 <= i < |us| ==> !IsFor(us[i], otype, oid)
    ensures
      var ref, m := ORef(otype, oid), LastWriter(before, us);
      (ref in m <==> ref in before) && (ref in m ==> m[ref] == before[ref])
    decreases |us|
  {
    if us != [] {
      var n := |us| - 1;
      assert !IsFor(us[n], otype, oid);
      NoWriterOf(before, us[..n], otype, oid);
    }
  }

  lemma {:induction false} LastOneOf(before: Updates, us: seq<WaveObjUpdate>, otype: string, oid: string, i: nat)
    requires i < |us| && IsFor(us[i], otype, oid)
    requires forall j :: i < j < |us| ==> !IsFor(us[j], otype, oid)
    ensures ORef(otype, oid) in LastWriter(before, us) && LastWriter(before, us)[ORef(otype, oid)] == us[i]
    decreases |us|
  {
    var n := |us| - 1;
    if i < n {
      assert !IsFor(us[n], otype, oid);
      LastOneOf(before, us[..n], otype, oid, i);
    }
  }

  /** Object by object: the last of its updates, or what was there before if it has none. Updates of
      other objects, by type or by id, do not matter. */
  lemma LastWriterOf(before: Updates, us: seq<WaveObjUpdate>, otype: string, oid: string)
    ensures
      var ref, m := ORef(otype, oid), LastWriter(before, us);
      && ((forall i :: 0 <= i < |us| ==> !IsFor(us[i], otype, oid)) ==>
            (ref in m <==> ref in before) && (ref in m ==> m[ref] == before[ref]))
      && (forall i :: 0 <= i < |us| && IsFor(us[i], otype, oid)
                      && (forall j :: i < j < |us| ==> !IsFor(us[j], otype, oid)) ==>
            ref in m && m[ref] == us[i])
  {
    hide LastWriter, IsFor;
    if forall i :: 0 <= i < |us| ==> !IsFor(us[i], otype, oid) {
      NoWriterOf(before, us, otype, oid);
    }
    forall i | 0 <= i < |us| && IsFor(us[i], otype, oid) && (forall j :: i < j < |us| ==> !IsFor(us[j], otype, oid))
      ensures ORef(otype, oid) in LastWriter(before, us) && LastWriter(before, us)[ORef(otype, oid)] == us[i]
    {
      LastOneOf(before, us, otype, oid, i);
    }
  }

  lemma NoWriter(before: Updates)
    ensures LastWriter(before, []) == before
  {
  }

  lemma {:induction false} KeptAppend(a: seq<(WaveObjUpdate, bool)>, b: seq<(WaveObjUpdate, bool)>)
    ensures Kept(a + b) == Kept(a) + Kept(b)
    decreases |b|
  {
    if b == [] {
      assert a + b == a;
    } else {
      assert (a + b)[..|a + b| - 1] == a + b[..|b| - 1];
      KeptAppend(a, b[..|b| - 1]);
    }
  }

  /** Nothing inside a failed transaction is kept. */
  lemma {:induction false} FailedKeepsNothing(body: seq<Step>)
    ensures Kept(AllUpdates(body, false)) == []
    decreases body
  {
    if body != [] {
      FailedKeepsNothing(body[1..]);
      var first := match body[0] case Add(u) => [(u, false)] case Tx(inner, fails) => AllUpdates(inner, false);
      KeptAppend(first, AllUpdates(body[1..], false));
      match body[0]
      case Add(u) => assert first[..0] == [];
      case Tx(inner, fails) => FailedKeepsNothing(inner);
    }
  }

  /** What the first step of a body makes of the top level. */
  function AfterFirst(top: Updates, step: Step): Updates {
    match step
    case Add(u) => top[RefOf(u) := u]
    case Tx(inner, fails) => LastWriter(top, Kept(AllUpdates(inner, !fails)))
  }

  lemma NothingWritten(top: Updates)
    ensures LastWriter(top, Kept(AllUpdates([], true))) == top
  {
  }

  lemma FirstWrites(top: Updates, step: Step) returns (first: seq<(WaveObjUpdate, bool)>)
    ensures AfterFirst(top, step) == LastWriter(top, Kept(first))
    ensures first == match step case Add(u) => [(u, true)] case Tx(inner, fails) => AllUpdates(inner, !fails)
  {
    match step
    case Add(u) =>
      first := [(u, true)];
      assert first[..0] == [] && Kept(first) == [u] && [u][..0] == [];
    case Tx(inner, fails) =>
      first := AllUpdates(inner, !fails);
  }

  lemma FirstThenRest(top: Updates, body: seq<Step>)
    requires body != []
    ensures LastWriter(AfterFirst(top, body[0]), Kept(AllUpdates(body[1..], true)))
            == LastWriter(top, Kept(AllUpdates(body, true)))
  {
    hide LastWriter, Kept, AfterFirst;
    var first := FirstWrites(top, body[0]);
    var rest := AllUpdates(body[1..], true);
    assert AllUpdates(body, true) == first + rest;
    KeptAppend(first, rest);
    LastWriterAppend(top, Kept(first), Kept(rest));
  }

  /** What the whole stack shows: higher maps hide lower ones. */
  function Merged(stack: seq<Updates>): Updates
    decreases |stack|
  {
    if stack == [] then map[] else Merged(stack[..|stack| - 1]) + stack[|stack| - 1]
  }

  /** The loop that merges one map into another. */
  method MergeInto(prev: Updates, cur: Updates) returns (m: Updates)
    ensures m == prev + cur
  {
    m := prev;
    var left := cur.Keys;
    while left != {}
      invariant left <= cur.Keys && m.Keys == prev.Keys + (cur.Keys - left)
      invariant forall k :: k in m ==> m[k] == if k in cur && k !in left then cur[k] else prev[k]
      decreases |left|
    {
      var k :| k in left;
      left := left - {k};
      m := m[k := cur[k]];
    }
  }

  class ContextUpdates {
    var updatesStack: seq<Updates>

    ghost predicate Valid()
      reads this
    {
      |updatesStack| >= 1
    }

    /** The value that ContextWithUpdates puts into the context. */
    constructor ()
      ensures Valid() && updatesStack == [map[]]
    {
      updatesStack := [map[]];
    }

    /** ContextUpdatesBeginTx */
    method BeginTx()
      requires Valid()
      modifies this
      ensures Valid() && updatesStack == old(updatesStack) + [map[]]
    {
      updatesStack := updatesStack + [map[]];
    }

    /** ContextUpdatesCommitTx; without an open transaction it panics. */
    method CommitTx() returns (panicked: bool)
      requires Valid()
      modifies this
      ensures Valid() && (panicked <==> |old(updatesStack)| <= 1)
      ensures panicked ==> updatesStack == old(updatesStack)
      ensures !panicked ==>
                var n, before := |old(updatesStack)|, old(updatesStack);
                updatesStack == before[..n - 2] + [before[n - 2] + before[n - 1]]
    {
      var n := |updatesStack|;
      if n <= 1 {
        return true;
      }
      var curUpdateMap, prevUpdateMap := updatesStack[n - 1], updatesStack[n - 2];
      prevUpdateMap := MergeInto(prevUpdateMap, curUpdateMap);
      updatesStack := updatesStack[..n - 2] + [prevUpdateMap];
      return false;
    }

    /** ContextUpdatesRollbackTx */
    method RollbackTx() returns (panicked: bool)
      requires Valid()
      modifies this
      ensures Valid() && (panicked <==> |old(updatesStack)| <= 1)
      ensures updatesStack == if panicked then old(updatesStack) else old(updatesStack)[..|old(updatesStack)| - 1]
    {
      if |updatesStack| <= 1 {
        return true;
      }
      updatesStack := updatesStack[..|updatesStack| - 1];
      return false;
    }

    /** ContextAddUpdate */
    method AddUpdate(update: WaveObjUpdate)
      requires Valid()
      modifies this
      ensures Valid()
      ensures var n := |old(updatesStack)|;
              updatesStack == old(updatesStack)[..n - 1] +
                                [old(updatesStack)[n - 1][ORef(update.otype, update.oid) := update]]
    {
      var n := |updatesStack|;
      updatesStack := updatesStack[n - 1 := updatesStack[n - 1][RefOf(update) := update]];
    }

    /** ContextGetUpdates */
    method GetUpdates() returns (rtn: Updates)
      requires Valid()
      ensures rtn == Merged(updatesStack)
    {
      if |updatesStack| == 1 {
        assert updatesStack[..0] == [];
        return updatesStack[0];
      }
      rtn := map[];
      for i := 0 to |updatesStack|
        invariant rtn == Merged(updatesStack[..i])
      {
        assert updatesStack[..i + 1][..i] == updatesStack[..i];
        rtn := rtn + updatesStack[i];
      }
      assert updatesStack[..|updatesStack|] == updatesStack;
    }

    /** ContextGetUpdate: the search from the top finds what the merged map holds. */
    method GetUpdate(oref: ORef) returns (rtn: Option<WaveObjUpdate>)
      requires Valid()
      ensures rtn == if oref in Merged(updatesStack) then Some(Merged(updatesStack)[oref]) else None
    {
      var idx := |updatesStack| - 1;
      assert updatesStack[..|updatesStack|] == updatesStack;
      while idx >= 0
        invariant -1 <= idx < |updatesStack|
        invariant oref in Merged(updatesStack) <==> oref in Merged(updatesStack[..idx + 1])
        invariant oref in Merged(updatesStack) ==> Merged(updatesStack)[oref] == Merged(updatesStack[..idx + 1])[oref]
      {
        assert updatesStack[..idx + 1][..idx] == updatesStack[..idx];
        if oref in updatesStack[idx] {
          return Some(updatesStack[idx][oref]);
        }
        idx := idx - 1;
      }
      return None;
    }

    /** WithTx: the body inside a new level, which is merged down or dropped. */
    method WithTx(body: seq<Step>, fails: bool)
      requires Valid()
      modifies this
      ensures Valid() && |updatesStack| == |old(updatesStack)|
      ensures var n := |old(updatesStack)|;
              updatesStack == old(updatesStack)[..n - 1] +
                                [LastWriter(old(updatesStack)[n - 1], Kept(AllUpdates(body, !fails)))]
      decreases body, 1
    {
      hide LastWriter, Kept, AllUpdates;
      ghost var n, top := |updatesStack|, updatesStack[|updatesStack| - 1];
      BeginTx();
      assert updatesStack[..n] == old(updatesStack) && updatesStack[n] == map[];
      RunBody(body);
      assert updatesStack == old(updatesStack) + [LastWriter(map[], Kept(AllUpdates(body, true)))];
      if fails {
        FailedKeepsNothing(body);
        NoWriter(top);
        var _ := RollbackTx();
      } else {
        MergeLater(top, Kept(AllUpdates(body, true)));
        var _ := CommitTx();
      }
    }

    /** The steps of a body, in any tree of nested transactions. The depth of the stack is restored,
        the levels below the top are untouched, and the top has gained exactly the last writes of the
        updates whose transactions all succeeded. */
    method RunBody(body: seq<Step>)
      requires Valid()
      modifies this
      ensures Valid() && |updatesStack| == |old(updatesStack)|
      ensures var n := |old(updatesStack)|;
              updatesStack == old(updatesStack)[..n - 1] +
                                [LastWriter(old(updatesStack)[n - 1], Kept(AllUpdates(body, true)))]
      decreases body, 0
    {
      hide LastWriter, Kept, AllUpdates;
      if body == [] {
        NothingWritten(updatesStack[|updatesStack| - 1]);
        return;
      }
      ghost var n, top := |updatesStack|, updatesStack[|updatesStack| - 1];
      match body[0] {
        case Add(u) => AddUpdate(u);
        case Tx(inner, fails) => WithTx(inner, fails);
      }
      assert updatesStack[n - 1] == AfterFirst(top, body[0]);
      RunBody(body[1..]);
      FirstThenRest(top, body);
    }
  }

  /** The same for what the context shows. */
  method VisibleAfter(c: ContextUpdates, body: seq<Step>) returns (visible: Updates)
    requires c.Valid()
    modifies c
    ensures c.Valid() && |c.updatesStack| == |old(c.updatesStack)|
    ensures visible == LastWriter(Merged(old(c.updatesStack)), Kept(AllUpdates(body, true)))
  {
    hide LastWriter, Kept, AllUpdates;
    ghost var before := c.updatesStack;
    ghost var n := |before|;
    c.RunBody(body);
    MergeLater(before[n - 1], Kept(AllUpdates(body, true)));
    MergeLater(Merged(before), Kept(AllUpdates(body, true)));
    assert c.updatesStack[..n - 1] == before[..n - 1];
    visible := c.GetUpdates();
  }
}
