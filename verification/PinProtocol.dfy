/** The pin and lock protocol around every block store operation, as a state machine whose steps
    interleave freely between callers. One step is one critical section of the store lock, or one
    lock, unlock or body of an entry. */
module PinProtocol {
  import opened Basics
  import opened WaveFiles

  type Caller = nat
  type EntryId = nat

  /** A cache entry on the heap. `owner` is the holder of the entry lock; `file` stands for the
      dirty data, None when there is none. */
  datatype Entry = Entry(pinCount: int, owner: Option<Caller>, file: Option<nat>)

  /** Where a caller is inside withLock, with the entry pointer it was given. */
  datatype Pc =
    | Idle
    | Pinned(key: FileKey, entry: EntryId)
    | InBody(key: FileKey, entry: EntryId)
    | Unlocked(key: FileKey, entry: EntryId)

  datatype State = State(cache: map<FileKey, EntryId>, heap: map<EntryId, Entry>, pcs: map<Caller, Pc>)

  datatype Action =
    | Pin(t: Caller, key: FileKey, newId: EntryId)  // getEntryAndPin; `newId` is the allocated entry, if one is needed
    | Lock(t: Caller)
    | Body(t: Caller, file: Option<nat>)            // the body leaves the entry with this file
    | Unlock(t: Caller)
    | Unpin(t: Caller)                              // unpinEntryAndTryDelete

  function PcOf(s: State, t: Caller): Pc {
    if t in s.pcs then s.pcs[t] else Idle
  }

  ghost predicate Next(s: State, a: Action, s': State) {
    match a
    case Pin(t, key, newId) =>
      && PcOf(s, t) == Idle
      && if key in s.cache then
           && s.cache[key] in s.heap
           && var e := s.cache[key];
              s' == State(s.cache, s.heap[e := s.heap[e].(pinCount := s.heap[e].pinCount + 1)],
                  s.pcs[t := Pinned(key, e)])
         else
           && newId !in s.heap
           && s' == State(s.cache[key := newId], s.heap[newId := Entry(1, None, None)], s.pcs[t := Pinned(key, newId)])
    case Lock(t) =>
      && PcOf(s, t).Pinned?
      && var Pinned(key, e) := PcOf(s, t);
      && e in s.heap && s.heap[e].owner == None
      && s' == s.(heap := s.heap[e := s.heap[e].(owner := Some(t))], pcs := s.pcs[t := InBody(key, e)])
    case Body(t, file) =>
      && PcOf(s, t).InBody?
      && var InBody(key, e) := PcOf(s, t);
      && e in s.heap
      && s' == s.(heap := s.heap[e := s.heap[e].(file := file)])
    case Unlock(t) =>
      && PcOf(s, t).InBody?
      && var InBody(key, e) := PcOf(s, t);
      && e in s.heap
      && s' == s.(heap := s.heap[e := s.heap[e].(owner := None)], pcs := s.pcs[t := Unlocked(key, e)])
    case Unpin(t) =>
      && PcOf(s, t).Unlocked?
      && var key := PcOf(s, t).key;
         var pcs := s.pcs[t := Idle];
         // the entry is looked up again by key, not through the caller's pointer
         if key !in s.cache then s' == s.(pcs := pcs)
         else
           && s.cache[key] in s.heap
           && var e := s.cache[key];
              var unpinned := s.heap[e].(pinCount := s.heap[e].pinCount - 1);
              s' == State(if unpinned.pinCount <= 0 && unpinned.file == None then s.cache - {key} else s.cache,
                          s.heap[e := unpinned], pcs)
  }

  /** The callers between pin and unpin of a key. */
  function Holders(s: State, key: FileKey): set<Caller> {
    set t | t in s.pcs && s.pcs[t] != Idle && s.pcs[t].key == key
  }

  /** PinCount is the number of callers between pin and unpin. */
  ghost predicate CountsExact(s: State) {
    forall k :: k in s.cache ==> s.cache[k] in s.heap && s.heap[s.cache[k]].pinCount == |Holders(s, k)|
  }

  ghost predicate EntriesDistinct(s: State) {
    forall k, k' :: k in s.cache && k' in s.cache && s.cache[k] == s.cache[k'] ==> k == k'
  }

  /** Every pinned pointer is still the one the cache hands out for its key. */
  ghost predicate PointersCurrent(s: State) {
    forall t :: t in s.pcs && s.pcs[t] != Idle ==> s.pcs[t].key in s.cache && s.cache[s.pcs[t].key] == s.pcs[t].entry
  }

  ghost predicate OwnersMatch(s: State) {
    && (forall t :: t in s.pcs && s.pcs[t].InBody? ==>
        s.pcs[t].entry in s.heap && s.heap[s.pcs[t].entry].owner == Some(t))
    && (forall e :: e in s.heap && s.heap[e].owner.Some? ==>
          var t := s.heap[e].owner.value; t in s.pcs && s.pcs[t].InBody? && s.pcs[t].entry == e)
  }

  /** An entry that nobody holds is in the cache only for its dirty file. */
  ghost predicate UnheldDirty(s: State) {
    forall k :: k in s.cache && Holders(s, k) == {} ==> s.cache[k] in s.heap && s.heap[s.cache[k]].file.Some?
  }

  ghost predicate Inv(s: State) {
    CountsExact(s) && EntriesDistinct(s) && PointersCurrent(s) && OwnersMatch(s) && UnheldDirty(s)
  }

  const Init := State(map[], map[], map[])

  lemma HoldersStep(s: State, s': State, t: Caller, pc: Pc, key: FileKey)
    requires s'.pcs == s.pcs[t := pc]
    ensures PcOf(s, t) == Idle && pc != Idle && pc.key == key ==>
              Holders(s', key) == Holders(s, key) + {t} && t !in Holders(s, key)
    ensures PcOf(s, t) != Idle && PcOf(s, t).key == key && pc == Idle ==>
              Holders(s, key) == Holders(s', key) + {t} && t !in Holders(s', key)
    ensures (PcOf(s, t) == Idle || PcOf(s, t).key != key) && (pc == Idle || pc.key != key) ==>
                Holders(s', key) == Holders(s, key)
    ensures PcOf(s, t) != Idle && pc != Idle && PcOf(s, t).key == pc.key ==> Holders(s', key) == Holders(s, key)
  {
  }

  lemma PinHolders(s: State, a: Action, s': State)
    requires a.Pin? && Next(s, a, s')
    ensures forall k :: Holders(s', k) == if k == a.key then Holders(s, k) + {a.t} else Holders(s, k)
    ensures forall k :: a.t !in Holders(s, k)
  {
    forall k
      ensures Holders(s', k) == if k == a.key then Holders(s, k) + {a.t} else Holders(s, k)
      ensures a.t !in Holders(s, k)
    {
      HoldersStep(s, s', a.t, s'.pcs[a.t], k);
    }
  }

  lemma PinKeepsInv(s: State, a: Action, s': State)
    requires a.Pin? && Inv(s) && Next(s, a, s')
    ensures Inv(s')
  {
    PinKeepsCounts(s, a, s');
    PinKeepsDistinct(s, a, s');
    PinKeepsCurrent(s, a, s');
    PinKeepsOwners(s, a, s');
  }

  lemma CachedOnHeap(s: State)
    requires CountsExact(s)
    ensures forall k :: k in s.cache ==> s.cache[k] in s.heap
  {
  }

  lemma PinKeepsCounts(s: State, a: Action, s': State)
    requires a.Pin? && Inv(s) && Next(s, a, s')
    ensures CountsExact(s') && UnheldDirty(s')
  {
    PinnedEntry(s, a, s');
    forall k | k in s'.cache
      ensures s'.heap[s'.cache[k]].pinCount == |Holders(s', k)|
      ensures Holders(s', k) == {} ==> s'.heap[s'.cache[k]].file.Some?
    {
      PinKeepsCountOf(s, a, s', k);
    }
  }

  lemma PinKeepsCountOf(s: State, a: Action, s': State, k: FileKey)
    requires a.Pin? && Inv(s) && Next(s, a, s') && k in s'.cache && s'.cache[k] in s'.heap
    ensures s'.heap[s'.cache[k]].pinCount == |Holders(s', k)|
    ensures Holders(s', k) == {} ==> s'.heap[s'.cache[k]].file.Some?
  {
    PinHolders(s, a, s');
    NewKeyUnheld(s, a.key);
    PinnedEntry(s, a, s');
    hide Holders, PointersCurrent, OwnersMatch, EntriesDistinct, Next;
    if k == a.key {
      assert |Holders(s', k)| == |Holders(s, k)| + 1;
    } else {
      assert Holders(s', k) == Holders(s, k);
    }
  }

  /** The entry of the key has one more pin; the entries of other keys are as they were. */
  lemma PinnedEntry(s: State, a: Action, s': State)
    requires a.Pin? && CountsExact(s) && EntriesDistinct(s) && Next(s, a, s')
    ensures a.key in s'.cache && s'.cache[a.key] in s'.heap
    ensures s'.heap[s'.cache[a.key]].pinCount == (if a.key in s.cache then s.heap[s.cache[a.key]].pinCount else 0) + 1
    ensures forall k :: k in s'.cache && k != a.key ==>
                          k in s.cache && s'.cache[k] == s.cache[k] && s'.cache[k] in s'.heap
                              && s'.heap[s'.cache[k]] == s.heap[s.cache[k]]
    ensures a.t in Holders(s', a.key)
  {
    CachedOnHeap(s);
    PinHolders(s, a, s');
    hide Holders, CountsExact;
  }

  lemma NewKeyUnheld(s: State, k: FileKey)
    requires PointersCurrent(s)
    ensures k !in s.cache ==> Holders(s, k) == {}
  {
  }

  lemma PinKeepsDistinct(s: State, a: Action, s': State)
    requires a.Pin? && Inv(s) && Next(s, a, s')
    ensures EntriesDistinct(s')
  {
    CachedOnHeap(s);
    hide Holders, CountsExact, PointersCurrent, OwnersMatch, UnheldDirty;
  }

  lemma PinKeepsCurrent(s: State, a: Action, s': State)
    requires a.Pin? && Inv(s) && Next(s, a, s')
    ensures PointersCurrent(s')
  {
    hide Holders, CountsExact, OwnersMatch, UnheldDirty, EntriesDistinct;
  }

  lemma PinKeepsOwners(s: State, a: Action, s': State)
    requires a.Pin? && Inv(s) && Next(s, a, s')
    ensures OwnersMatch(s')
  {
    hide Holders, CountsExact, PointersCurrent, UnheldDirty, EntriesDistinct;
  }

  lemma UnpinHolders(s: State, a: Action, s': State)
    requires a.Unpin? && Next(s, a, s')
    ensures
      var key := PcOf(s, a.t).key;
      && |Holders(s', key)| == |Holders(s, key)| - 1
      && (forall k :: k != key ==> Holders(s', k) == Holders(s, k))
      && (forall t :: t in s'.pcs && s'.pcs[t] != Idle && s'.pcs[t].key == key ==> t in Holders(s', key))
  {
    var key := PcOf(s, a.t).key;
    forall k
      ensures k == key ==> Holders(s, k) == Holders(s', k) + {a.t} && a.t !in Holders(s', k)
      ensures k != key ==> Holders(s', k) == Holders(s, k)
    {
      HoldersStep(s, s', a.t, Idle, k);
    }
    assert |Holders(s', key)| == |Holders(s, key)| - 1;
  }

  lemma UnpinKeepsInv(s: State, a: Action, s': State)
    requires a.Unpin? && Inv(s) && Next(s, a, s')
    ensures Inv(s')
  {
    UnpinKeepsCounts(s, a, s');
    UnpinKeepsCurrent(s, a, s');
    UnpinKeepsOwners(s, a, s');
  }

  lemma UnpinKeepsCounts(s: State, a: Action, s': State)
    requires a.Unpin? && Inv(s) && Next(s, a, s')
    ensures CountsExact(s') && EntriesDistinct(s') && UnheldDirty(s')
  {
    UnpinHolders(s, a, s');
    hide Holders, OwnersMatch, PointersCurrent;
    var key := PcOf(s, a.t).key;
    assert Holders(s', key) == {} <==> |Holders(s', key)| == 0;
    forall k | k in s'.cache && k != key
      ensures s'.heap[s'.cache[k]] == s.heap[s.cache[k]]
    {
      assert k in s.cache;
    }
  }

  /** The entry only goes when nobody holds it any more. */
  lemma UnpinKeepsCurrent(s: State, a: Action, s': State)
    requires a.Unpin? && Inv(s) && Next(s, a, s')
    ensures PointersCurrent(s')
  {
    UnpinHolders(s, a, s');
    hide Holders, UnheldDirty, OwnersMatch, EntriesDistinct;
    var key := PcOf(s, a.t).key;
    forall t | t in s'.pcs && s'.pcs[t] != Idle
      ensures s'.pcs[t].key in s'.cache && s'.cache[s'.pcs[t].key] == s'.pcs[t].entry
    {
      assert s.pcs[t] == s'.pcs[t];
      if s'.pcs[t].key == key {
        assert t in Holders(s', key);
        assert |Holders(s', key)| > 0;
      }
    }
  }

  lemma UnpinKeepsOwners(s: State, a: Action, s': State)
    requires a.Unpin? && Inv(s) && Next(s, a, s')
    ensures OwnersMatch(s')
  {
    hide Holders, CountsExact, PointersCurrent, UnheldDirty, EntriesDistinct;
  }

  lemma OtherKeepsInv(s: State, a: Action, s': State)
    requires !a.Pin? && !a.Unpin? && Inv(s) && Next(s, a, s')
    ensures Inv(s')
  {
    OtherKeepsCounts(s, a, s');
    OtherKeepsOwners(s, a, s');
  }

  lemma OtherKeepsCounts(s: State, a: Action, s': State)
    requires !a.Pin? && !a.Unpin? && Inv(s) && Next(s, a, s')
    ensures CountsExact(s') && EntriesDistinct(s') && PointersCurrent(s') && UnheldDirty(s')
  {
    forall k
      ensures Holders(s', k) == Holders(s, k)
    {
      if !a.Body? {
        HoldersStep(s, s', a.t, s'.pcs[a.t], k);
      }
    }
    assert a.t in Holders(s, PcOf(s, a.t).key);
    hide Holders, OwnersMatch;
  }

  lemma OtherKeepsOwners(s: State, a: Action, s': State)
    requires !a.Pin? && !a.Unpin? && Inv(s) && Next(s, a, s')
    ensures OwnersMatch(s')
  {
    hide Holders, CountsExact, PointersCurrent, UnheldDirty, EntriesDistinct;
  }

  lemma StepKeepsInv(s: State, a: Action, s': State)
    requires Inv(s) && Next(s, a, s')
    ensures Inv(s')
  {
    match a
    case Pin(_, _, _) => PinKeepsInv(s, a, s');
    case Unpin(_) => UnpinKeepsInv(s, a, s');
    case _ => OtherKeepsInv(s, a, s');
  }

  // ----- runs -----

  ghost predicate IsRun(states: seq<State>, actions: seq<Action>) {
    && |states| == |actions| + 1 && states[0] == Init
    && forall i :: 0 <= i < |actions| ==> Next(states[i], actions[i], states[i + 1])
  }

  lemma {:induction false} RunInv(states: seq<State>, actions: seq<Action>, n: nat)
    requires IsRun(states, actions) && n <= |actions|
    ensures Inv(states[n])
    decreases n
  {
    if n > 0 {
      RunInv(states, actions, n - 1);
      StepKeepsInv(states[n - 1], actions[n - 1], states[n]);
    }
  }

  /** In every reachable state: pin counts are exact, all callers on one key hold the same entry, and
      at most one of them is inside its body. */
  lemma PinSafety(states: seq<State>, actions: seq<Action>, n: nat)
    requires IsRun(states, actions) && n <= |actions|
    ensures
      var s := states[n];
      && (forall k :: k in s.cache ==> s.cache[k] in s.heap && s.heap[s.cache[k]].pinCount == |Holders(s, k)|)
      && (forall t, u :: PcOf(s, t) != Idle && PcOf(s, u) != Idle && PcOf(s, t).key == PcOf(s, u).key ==>
                           PcOf(s, t).entry == PcOf(s, u).entry)
      && (forall t, u :: PcOf(s, t).InBody? && PcOf(s, u).InBody? && PcOf(s, t).key == PcOf(s, u).key ==> t == u)
  {
    RunInv(states, actions, n);
  }

  /** No step of a run removes or replaces an entry that has a dirty file. */
  lemma DirtyEntryStays(states: seq<State>, actions: seq<Action>, n: nat, k: FileKey)
    requires IsRun(states, actions) && n < |actions|
    requires k in states[n].cache && states[n].cache[k] in states[n].heap
    requires states[n].heap[states[n].cache[k]].file.Some?
    ensures k in states[n + 1].cache && states[n + 1].cache[k] == states[n].cache[k]
  {
    RunInv(states, actions, n);
    hide Holders, OwnersMatch, UnheldDirty, PointersCurrent;
    assert Next(states[n], actions[n], states[n + 1]);
  }

  /** What an entry holds only changes in the body of the caller that owns it; so from lock to unlock
      a body sees only its own writes. */
  lemma BodyIsAlone(states: seq<State>, actions: seq<Action>, n: nat, e: EntryId)
    requires IsRun(states, actions) && n < |actions|
    requires e in states[n].heap && e in states[n + 1].heap && states[n + 1].heap[e].file != states[n].heap[e].file
    ensures actions[n].Body? && PcOf(states[n], actions[n].t).entry == e
    ensures forall u :: u != actions[n].t && PcOf(states[n], u).InBody? ==> PcOf(states[n], u).entry != e
  {
    RunInv(states, actions, n);
  }

  /** A caller that is between pin and unpin keeps the entry of its key in the cache, whatever the
      others do. */
  lemma HeldEntryStays(states: seq<State>, actions: seq<Action>, n: nat, t: Caller)
    requires IsRun(states, actions) && n < |actions|
    requires PcOf(states[n], t) != Idle && PcOf(states[n + 1], t) != Idle
    ensures
      var k, e := PcOf(states[n], t).key, PcOf(states[n], t).entry;
      && PcOf(states[n + 1], t).key == k && PcOf(states[n + 1], t).entry == e
      && k in states[n].cache && states[n].cache[k] == e
      && k in states[n + 1].cache && states[n + 1].cache[k] == e
  {
    RunInv(states, actions, n);
    RunInv(states, actions, n + 1);
    HeldOverStep(states[n], actions[n], states[n + 1], t);
  }

  lemma HeldOverStep(s: State, a: Action, s': State, t: Caller)
    requires PointersCurrent(s) && PointersCurrent(s') && Next(s, a, s')
    requires PcOf(s, t) != Idle && PcOf(s', t) != Idle
    ensures
      var k, e := PcOf(s, t).key, PcOf(s, t).entry;
      PcOf(s', t).key == k && PcOf(s', t).entry == e && k in s.cache && s.cache[k] == e && k in s'.cache
          && s'.cache[k] == e
  {
  }
}
