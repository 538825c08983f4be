/** The component tree and the reconciler that updates it in place. */
module Reconciler {
  import opened Basics
  import opened VDom

  class Component {
    const id: nat
    const tag: string
    const key: string
    var elem: Option<Elem>
    var text: string
    var children: seq<Component?>
    var comp: Component?

    constructor (id: nat, tag: string, key: string)
      ensures this.id == id && this.tag == tag && this.key == key
      ensures elem == None && text == "" && children == [] && comp == null
    {
      this.id, this.tag, this.key := id, tag, key;
      elem, text, children, comp := None, "", [], null;
    }
  }

  // ----- the tree that a component pointer stands for -----

  /** A snapshot of the components below a pointer; `all` is the set of pointers in it. A child whose
      element has no tag is a nil pointer. */
  datatype Tree = Tree(ptr: Component, elem: Elem, text: string, kids: seq<Option<Tree>>, sub: Option<Tree>,
                       all: set<Component>)

  ghost function PtrOf(t: Option<Tree>): Component? {
    if t.Some? then t.value.ptr else null
  }

  ghost function AllOpt(t: Option<Tree>): set<Component> {
    if t.Some? then t.value.all else {}
  }

  ghost function All(ts: seq<Option<Tree>>): set<Component> {
    set i, c | 0 <= i < |ts| && c in AllOpt(ts[i]) :: c
  }

  ghost predicate Disjoint(ts: seq<Option<Tree>>) {
    forall i, j :: 0 <= i < j < |ts| ==> AllOpt(ts[i]) !! AllOpt(ts[j])
  }

  /** `all` is right at every level, and no component occurs twice. */
  ghost predicate Distinct(t: Tree) {
    && t.all == {t.ptr} + All(t.kids) + AllOpt(t.sub)
    && t.ptr !in All(t.kids) && t.ptr !in AllOpt(t.sub) && All(t.kids) !! AllOpt(t.sub)
    && Disjoint(t.kids)
    && (forall i :: 0 <= i < |t.kids| && t.kids[i].Some? ==> Distinct(t.kids[i].value))
    && (t.sub.Some? ==> Distinct(t.sub.value))
  }

  /** The heap below t.ptr looks like t. */
  ghost predicate Rep(t: Tree)
    requires Distinct(t)
    reads t.all
    decreases t
  {
    && t.ptr.elem == Some(t.elem) && t.ptr.text == t.text
    && |t.ptr.children| == |t.kids|
    && (forall i :: 0 <= i < |t.kids| ==>
          && t.ptr.children[i] == PtrOf(t.kids[i])
          && (t.kids[i].Some? ==> t.kids[i].value.all <= t.all && Rep(t.kids[i].value)))
    && (t.sub.Some? ==> t.ptr.comp == t.sub.value.ptr && Rep(t.sub.value))
    && (t.sub.None? ==> t.ptr.comp == null)
  }

  /** A component whose tag is unknown has rendered nothing. */
  ghost predicate Settled(cfuncs: CFuncs, t: Tree) {
    && (!IsBaseTag(t.ptr.tag) && t.ptr.tag !in cfuncs ==> t.sub.None?)
    && (forall i :: 0 <= i < |t.kids| && t.kids[i].Some? ==> Settled(cfuncs, t.kids[i].value))
    && (t.sub.Some? ==> Settled(cfuncs, t.sub.value))
  }

  ghost predicate Good(cfuncs: CFuncs, t: Tree)
    reads t.all
  {
    Distinct(t) && Rep(t) && Settled(cfuncs, t)
  }

  ghost predicate GoodOpt(cfuncs: CFuncs, t: Option<Tree>)
    reads AllOpt(t)
  {
    t.Some? ==> Good(cfuncs, t.value)
  }

  /** The same for the trees below a list of pointers. */
  ghost predicate GoodAll(cfuncs: CFuncs, ts: seq<Option<Tree>>, ptrs: seq<Component?>)
    reads All(ts)
  {
    && |ptrs| == |ts| && Disjoint(ts)
    && forall i :: 0 <= i < |ts| ==> ptrs[i] == PtrOf(ts[i]) && AllOpt(ts[i]) <= All(ts) && GoodOpt(cfuncs, ts[i])
  }

  /** convertToVDom on trees. */
  ghost function Shown(t: Tree): Option<VNode>
    decreases t, 1
  {
    if t.ptr.tag == TEXT_TAG then Some(VText(t.text))
    else if IsBaseTag(t.ptr.tag) then
      Some(VElem(t.ptr.id, t.ptr.tag, ConvertProps(t.elem.props), ShownAll(t, |t.kids|)))
    else if t.sub.Some? then Shown(t.sub.value)
    else None
  }

  ghost function ShownAll(t: Tree, n: nat): seq<VNode>
    requires n <= |t.kids|
    decreases t, 0, n
  {
    if n == 0 then []
    else
      var last := if t.kids[n - 1].Some? then Shown(t.kids[n - 1].value) else None;
      ShownAll(t, n - 1) + if last.Some? then [last.value] else []
  }

  /** Output up to ids. */
  function Erase(v: VNode): VNode {
    match v
    case VText(_) => v
    case VElem(_, tag, props, children) =>
      VElem(0, tag, props, seq(|children|, i requires 0 <= i < |children| => Erase(children[i])))
  }

  function EraseOpt(v: Option<VNode>): Option<VNode> {
    if v.Some? then Some(Erase(v.value)) else None
  }

  datatype ChildKey = ChildKey(tag: string, idx: nat, key: string)

  /** The slot under which a child of the previous render is found again. */
  function ChildKeyOf(tag: string, key: string, idx: nat): ChildKey {
    if key != "" then ChildKey(tag, 0, key) else ChildKey(tag, idx, "")
  }

  /** The slot that child i of an element looks for. */
  function SlotOf(e: Elem, i: nat): ChildKey
    requires i < |e.children|
  {
    ChildKeyOf(e.children[i].tag, e.children[i].Key(), i)
  }

  /** No child is nil. */
  ghost predicate NoNil(cur: seq<Component?>) {
    forall j :: 0 <= j < |cur| ==> cur[j] != null
  }

  /** The slot that an old child is found in. */
  ghost function SlotAt(cur: seq<Component?>, j: nat): ChildKey
    requires NoNil(cur) && j < |cur|
  {
    ChildKeyOf(cur[j].tag, cur[j].key, j)
  }

  /** Old child j is the last one in the slot that element e looks for at position i. */
  ghost predicate LastInSlot(cur: seq<Component?>, j: nat, e: Elem, i: nat)
    requires NoNil(cur) && j < |cur|
  {
    && SlotAt(cur, j) == ChildKeyOf(e.tag, e.Key(), i)
    && forall k :: j < k < |cur| ==> SlotAt(cur, k) != SlotAt(cur, j)
  }

  /** No two children of the element look for the same old child. */
  ghost predicate Apart(cur: seq<Component?>, e: Elem)
    requires NoNil(cur)
  {
    forall i, i', j :: 0 <= i < i' < |e.children| && 0 <= j < |cur| && SlotOf(e, i) == SlotAt(cur, j) ==>
      SlotOf(e, i') != SlotOf(e, i)
  }

  /** `at` leads from every slot that is taken to the last old child in it. */
  ghost predicate IsIndex(cur: seq<Component?>, at: map<ChildKey, nat>)
    requires NoNil(cur)
  {
    && (forall k :: k in at ==> at[k] < |cur| && SlotAt(cur, at[k]) == k)
    && (forall j :: 0 <= j < |cur| ==> SlotAt(cur, j) in at && j <= at[SlotAt(cur, j)])
  }

  /** The old children that the first n new ones take over. */
  ghost function Taken(e: Elem, at: map<ChildKey, nat>, n: nat): set<nat>
    requires n <= |e.children|
  {
    set i | 0 <= i < n && SlotOf(e, i) in at :: at[SlotOf(e, i)]
  }

  lemma TakenNext(cur: seq<Component?>, e: Elem, at: map<ChildKey, nat>, n: nat)
    requires NoNil(cur) && IsIndex(cur, at) && Apart(cur, e) && n < |e.children|
    ensures SlotOf(e, n) in at ==>
              at[SlotOf(e, n)] !in Taken(e, at, n) && Taken(e, at, n + 1) == Taken(e, at, n) + {at[SlotOf(e, n)]}
    ensures SlotOf(e, n) !in at ==> Taken(e, at, n + 1) == Taken(e, at, n)
  {
    forall i | 0 <= i < n && SlotOf(e, i) in at && SlotOf(e, n) in at
      ensures at[SlotOf(e, i)] != at[SlotOf(e, n)]
    {
      assert SlotOf(e, i) == SlotAt(cur, at[SlotOf(e, i)]);
    }
  }

  lemma TakenNone(e: Elem, at: map<ChildKey, nat>)
    ensures Taken(e, at, 0) == {}
  {
  }

  lemma TakenByLast(cur: seq<Component?>, e: Elem, at: map<ChildKey, nat>, i: nat, j: nat)
    requires NoNil(cur) && IsIndex(cur, at) && i < |e.children| && j < |cur|
    ensures LastInSlot(cur, j, e.children[i], i) <==> SlotOf(e, i) in at && at[SlotOf(e, i)] == j
  {
  }

  lemma AllPrefix(ts: seq<Option<Tree>>, n: nat)
    requires n < |ts|
    ensures All(ts[..n + 1]) == All(ts[..n]) + AllOpt(ts[n])
  {
    var next, now := ts[..n + 1], ts[..n];
    forall c
      ensures c in All(next) <==> c in All(now) || c in AllOpt(ts[n])
    {
      if c in All(next) {
        var i :| 0 <= i < n + 1 && c in AllOpt(next[i]);
        assert i < n ==> now[i] == next[i];
      }
      if c in All(now) {
        var i :| 0 <= i < n && c in AllOpt(now[i]);
        assert next[i] == now[i];
      }
      assert next[n] == ts[n];
    }
  }

  lemma AllNone()
    ensures All([]) == {}
  {
  }

  lemma AllOfKid(ts: seq<Option<Tree>>, i: nat)
    requires i < |ts|
    ensures AllOpt(ts[i]) <= All(ts)
    ensures Disjoint(ts) ==> AllOpt(ts[i]) !! All(ts[..i])
  {
    if Disjoint(ts) {
      forall c | c in All(ts[..i])
        ensures c !in AllOpt(ts[i])
      {
        var j :| 0 <= j < i && c in AllOpt(ts[..i][j]);
        assert ts[..i][j] == ts[j];
      }
    }
  }

  lemma AllOfKids(ts: seq<Option<Tree>>)
    ensures forall i :: 0 <= i < |ts| ==> AllOpt(ts[i]) <= All(ts)
  {
  }

  /** The components of the trees at the given indices. */
  ghost function AllAt(ts: seq<Option<Tree>>, at: set<nat>): set<Component> {
    set i, c | i in at && i < |ts| && c in AllOpt(ts[i]) :: c
  }

  lemma InAllAt(ts: seq<Option<Tree>>, at: set<nat>, c: Component)
    ensures c in AllAt(ts, at) <==> exists i :: i in at && i < |ts| && c in AllOpt(ts[i])
  {
  }

  lemma AllAtAdd(ts: seq<Option<Tree>>, at: set<nat>, j: nat)
    requires j < |ts|
    ensures AllAt(ts, at + {j}) == AllAt(ts, at) + AllOpt(ts[j])
  {
    hide AllAt, AllOpt;
    assert forall i :: i in at + {j} <==> i in at || i == j;
    forall c | c in AllAt(ts, at + {j})
      ensures c in AllAt(ts, at) + AllOpt(ts[j])
    {
      InAllAt(ts, at, c);
      InAllAt(ts, at + {j}, c);
    }
    forall c | c in AllAt(ts, at) + AllOpt(ts[j])
      ensures c in AllAt(ts, at + {j})
    {
      InAllAt(ts, at, c);
      InAllAt(ts, at + {j}, c);
    }
  }

  lemma AllAtApart(ts: seq<Option<Tree>>, at: set<nat>, j: nat)
    requires j < |ts| && Disjoint(ts) && j !in at
    ensures AllAt(ts, at) !! AllOpt(ts[j])
  {
    hide AllAt, AllOpt;
    forall c | c in AllAt(ts, at)
      ensures c !in AllOpt(ts[j])
    {
      InAllAt(ts, at, c);
    }
  }

  /** The old child about to be rendered shares no component with the new trees or the other old ones. */
  lemma OldChildApart(live0: set<Component>, ts: seq<Option<Tree>>, used: set<nat>, ts': seq<Option<Tree>>,
                      j: Option<nat>)
    requires All(ts) <= live0 && Disjoint(ts)
    requires forall p :: p in All(ts') ==> p in AllAt(ts, used) || p !in live0
    requires j.Some? ==> j.value < |ts| && j.value !in used
    ensures j.Some? ==>
              && AllOpt(ts[j.value]) <= live0 && All(ts') !! AllOpt(ts[j.value])
              && AllAt(ts, used) !! AllOpt(ts[j.value])
              && AllAt(ts, used + {j.value}) == AllAt(ts, used) + AllOpt(ts[j.value])
              && forall k :: 0 <= k < |ts| && k != j.value ==> AllOpt(ts[k]) !! AllOpt(ts[j.value])
  {
    AllOfKids(ts);
    if j.Some? {
      AllAtAdd(ts, used, j.value);
      AllAtApart(ts, used, j.value);
    }
  }

  lemma AllAtEnds(ts: seq<Option<Tree>>, at: set<nat>)
    ensures AllAt(ts, {}) == {}
    ensures (forall j: nat :: j < |ts| ==> j in at) ==> AllAt(ts, at) == All(ts)
  {
  }

  lemma AllAppend(ts: seq<Option<Tree>>, t: Option<Tree>)
    ensures All(ts + [t]) == All(ts) + AllOpt(t)
  {
    var next := ts + [t];
    AllPrefix(next, |ts|);
    assert next[..|ts| + 1] == next && next[..|ts|] == ts;
  }

  // ----- shown output -----

  ghost function EraseSeq(vs: seq<VNode>): seq<VNode> {
    seq(|vs|, i requires 0 <= i < |vs| => Erase(vs[i]))
  }

  /** Tree t shows, up to ids, what element e expands to. */
  ghost predicate ShowsAs(cfuncs: CFuncs, t: Option<Tree>, e: Elem, fuel: nat) {
    Expand(cfuncs, e, fuel) == if t.Some? then EraseOpt(Shown(t.value)) else None
  }

  lemma {:induction false} ChildrenShow(cfuncs: CFuncs, t: Tree, e: Elem, n: nat, fuel: nat)
    requires n <= |t.kids| == |e.children|
    requires forall i :: 0 <= i < n ==> ShowsAs(cfuncs, t.kids[i], e.children[i], fuel)
    ensures EraseSeq(ShownAll(t, n)) == ExpandAll(cfuncs, e, n, fuel)
    decreases n
  {
    if n > 0 {
      ChildrenShow(cfuncs, t, e, n - 1, fuel);
      var before := ShownAll(t, n - 1);
      var last := if t.kids[n - 1].Some? then Shown(t.kids[n - 1].value) else None;
      assert ShowsAs(cfuncs, t.kids[n - 1], e.children[n - 1], fuel);
      if last.Some? {
        assert EraseSeq(before + [last.value]) == EraseSeq(before) + [Erase(last.value)];
      } else {
        assert before + [] == before;
      }
    }
  }

  // ----- what a tree must be like for an element to be rendered over it -----

  ghost function Ptrs(ts: seq<Option<Tree>>): seq<Component?> {
    seq(|ts|, i requires 0 <= i < |ts| => PtrOf(ts[i]))
  }

  /** The element can be rendered over the tree: wherever a component is kept, no old child is nil and
      no two children look for the same old child. With no tree there is nothing to ask. */
  ghost predicate Smooth(cfuncs: CFuncs, t: Option<Tree>, e: Elem, fuel: nat)
    decreases fuel, e
  {
    if t.None? || e.tag == "" || e.tag == TEXT_TAG || t.value.ptr.tag != e.tag || t.value.ptr.key != e.Key() then true
    else if IsBaseTag(e.tag) then SmoothKids(cfuncs, t.value.kids, e, fuel)
    else if e.tag !in cfuncs || fuel == 0 then true
    else
      var out := OutputElem(cfuncs[e.tag](e));
      out.Some? ==> Smooth(cfuncs, t.value.sub, out.value, fuel - 1)
  }

  ghost predicate SmoothKids(cfuncs: CFuncs, kids: seq<Option<Tree>>, e: Elem, fuel: nat)
    decreases fuel, e, 0
  {
    var cur := Ptrs(kids);
    && NoNil(cur) && Apart(cur, e)
    && forall i, j :: 0 <= i < |e.children| && 0 <= j < |cur| && LastInSlot(cur, j, e.children[i], i) ==>
                        Smooth(cfuncs, kids[j], e.children[i], fuel)
  }

  lemma SmoothKidsAre(cfuncs: CFuncs, kids: seq<Option<Tree>>, e: Elem, fuel: nat)
    requires SmoothKids(cfuncs, kids, e, fuel)
    ensures NoNil(Ptrs(kids)) && Apart(Ptrs(kids), e)
  {
  }

  lemma SmoothKid(cfuncs: CFuncs, kids: seq<Option<Tree>>, e: Elem, fuel: nat, i: nat, at: map<ChildKey, nat>)
    requires SmoothKids(cfuncs, kids, e, fuel) && NoNil(Ptrs(kids)) && IsIndex(Ptrs(kids), at)
    requires i < |e.children| && SlotOf(e, i) in at
    ensures Smooth(cfuncs, kids[at[SlotOf(e, i)]], e.children[i], fuel)
  {
    TakenByLast(Ptrs(kids), e, at, i, at[SlotOf(e, i)]);
  }

  /** Nothing visible in the tree has a nil child. */
  ghost predicate Full(t: Tree) {
    if t.ptr.tag == TEXT_TAG then true
    else if IsBaseTag(t.ptr.tag) then forall i :: 0 <= i < |t.kids| ==> t.kids[i].Some? && Full(t.kids[i].value)
    else t.sub.Some? ==> Full(t.sub.value)
  }

  ghost predicate FullOpt(t: Option<Tree>) {
    t.Some? ==> Full(t.value)
  }

  /** A tidy element can be rendered over any such tree. */
  lemma {:induction false} TidyIsSmooth(cfuncs: CFuncs, t: Option<Tree>, e: Elem, fuel: nat)
    requires FullOpt(t) && Tidy(cfuncs, e, fuel)
    ensures Smooth(cfuncs, t, e, fuel)
    decreases fuel, e
  {
    if t.Some? && t.value.ptr.tag == e.tag && e.tag != TEXT_TAG && e.tag != "" {
      if IsBaseTag(e.tag) {
        var kids := t.value.kids;
        forall i, j | 0 <= i < |e.children| && 0 <= j < |kids|
          ensures Smooth(cfuncs, kids[j], e.children[i], fuel)
        {
          TidyIsSmooth(cfuncs, kids[j], e.children[i], fuel);
        }
      } else if e.tag in cfuncs && fuel > 0 {
        var out := OutputElem(cfuncs[e.tag](e));
        if out.Some? {
          TidyIsSmooth(cfuncs, t.value.sub, out.value, fuel - 1);
        }
      }
    }
  }

  lemma SmoothOutput(cfuncs: CFuncs, t: Tree, e: Elem, fuel: nat)
    requires e.tag != "" && e.tag != TEXT_TAG && !IsBaseTag(e.tag) && e.tag in cfuncs && Renderable(cfuncs, e, fuel)
    requires t.ptr.tag == e.tag && t.ptr.key == e.Key() && Smooth(cfuncs, Some(t), e, fuel)
    ensures fuel > 0
    ensures
      var out := OutputElem(cfuncs[e.tag](e));
      out.Some? ==> Renderable(cfuncs, out.value, fuel - 1) && Smooth(cfuncs, t.sub, out.value, fuel - 1)
  {
  }

  lemma NothingRendered(cfuncs: CFuncs, e: Elem, fuel: nat)
    requires e.tag == ""
    ensures Rendition(cfuncs, None, e, fuel)
  {
  }

  lemma SmoothKept(cfuncs: CFuncs, t: Tree, e: Elem, fuel: nat)
    requires Smooth(cfuncs, Some(t), e, fuel)
    ensures Smooth(cfuncs, Some(t.(elem := e)), e, fuel)
  {
  }

  /** A bare component asks for nothing. */
  lemma SmoothBare(cfuncs: CFuncs, t: Tree, e: Elem, fuel: nat)
    requires t.kids == [] && t.sub.None?
    ensures Smooth(cfuncs, Some(t), e, fuel)
  {
  }

  /** The component of the tree is kept for the element, and its children are matched. */
  ghost predicate Keeps(t: Tree, e: Elem) {
    IsBaseTag(e.tag) && e.tag != TEXT_TAG && t.ptr.tag == e.tag && t.ptr.key == e.Key()
  }

  ghost predicate FitsChild(kid: Option<Tree>, e: Elem) {
    && (kid.None? <==> e.tag == "")
    && (kid.Some? ==> kid.value.ptr.tag == e.tag && kid.value.ptr.key == e.Key())
  }

  /** What a render leaves in a slot: a tree that shows the element and, if the element is tidy, has no
      nil child; the nil children of a base tag are those whose element has no tag. */
  ghost predicate Rendition(cfuncs: CFuncs, t: Option<Tree>, e: Elem, fuel: nat) {
    && ShowsAs(cfuncs, t, e, fuel) && FitsChild(t, e)
    && (Tidy(cfuncs, e, fuel) ==> FullOpt(t))
    && (t.Some? && IsBaseTag(e.tag) && e.tag != TEXT_TAG ==>
          |t.value.kids| == |e.children| &&
          forall i :: 0 <= i < |e.children| ==> FitsChild(t.value.kids[i], e.children[i]))
  }

  /** The same for the first children of an element. */
  ghost predicate Renditions(cfuncs: CFuncs, ts: seq<Option<Tree>>, e: Elem, fuel: nat) {
    && |ts| <= |e.children|
    && forall i :: 0 <= i < |ts| ==> Rendition(cfuncs, ts[i], e.children[i], fuel)
  }

  lemma RenditionsNext(cfuncs: CFuncs, ts: seq<Option<Tree>>, t: Option<Tree>, e: Elem, fuel: nat)
    requires Renditions(cfuncs, ts, e, fuel) && |ts| < |e.children| && Rendition(cfuncs, t, e.children[|ts|], fuel)
    ensures Renditions(cfuncs, ts + [t], e, fuel)
  {
    hide Rendition;
  }

  /** Each of the first elements that has a tag takes over the last old child in its slot. */
  ghost predicate TakesOver(cur: seq<Component?>, e: Elem, next: seq<Component?>) {
    && NoNil(cur) && |next| <= |e.children|
    && forall i, j :: 0 <= i < |next| && 0 <= j < |cur| && LastInSlot(cur, j, e.children[i], i) ==>
                        e.children[i].tag != "" ==> next[i] == cur[j]
  }

  lemma NoRenditions(cfuncs: CFuncs, cur: seq<Component?>, e: Elem, fuel: nat)
    requires NoNil(cur)
    ensures Renditions(cfuncs, [], e, fuel) && TakesOver(cur, e, [])
  {
  }

  lemma TakesOverNext(cur: seq<Component?>, at: map<ChildKey, nat>, e: Elem, next: seq<Component?>, c: Component?)
    requires NoNil(cur) && IsIndex(cur, at) && TakesOver(cur, e, next) && |next| < |e.children|
    requires
      var slot := SlotOf(e, |next|);
      slot in at && e.children[|next|].tag != "" ==> c == cur[at[slot]]
    ensures TakesOver(cur, e, next + [c])
  {
    var n := |next|;
    forall j | 0 <= j < |cur|
      ensures LastInSlot(cur, j, e.children[n], n) ==> SlotOf(e, n) in at && at[SlotOf(e, n)] == j
    {
      TakenByLast(cur, e, at, n, j);
    }
    hide LastInSlot, IsIndex;
  }

  // ----- taking a tree apart and putting one together -----

  lemma PartsOf(cfuncs: CFuncs, t: Tree)
    requires Good(cfuncs, t)
    ensures t.all == {t.ptr} + All(t.kids) + AllOpt(t.sub)
    ensures t.ptr !in All(t.kids) && t.ptr !in AllOpt(t.sub) && All(t.kids) !! AllOpt(t.sub)
    ensures GoodAll(cfuncs, t.kids, t.ptr.children) && t.ptr.elem == Some(t.elem) && t.ptr.text == t.text
    ensures t.sub.Some? ==> Good(cfuncs, t.sub.value) && t.ptr.comp == t.sub.value.ptr
    ensures t.sub.None? ==> t.ptr.comp == null
    ensures !IsBaseTag(t.ptr.tag) && t.ptr.tag !in cfuncs ==> t.sub.None?
    ensures forall i :: 0 <= i < |t.kids| && t.kids[i].Some? ==> t.kids[i].value < t
  {
    AllOfKids(t.kids);
  }

  lemma Assembled(cfuncs: CFuncs, t: Tree)
    requires t.all == {t.ptr} + All(t.kids) + AllOpt(t.sub)
    requires t.ptr !in All(t.kids) && t.ptr !in AllOpt(t.sub) && All(t.kids) !! AllOpt(t.sub)
    requires GoodAll(cfuncs, t.kids, t.ptr.children) && t.ptr.elem == Some(t.elem) && t.ptr.text == t.text
    requires t.sub.Some? ==> Good(cfuncs, t.sub.value)
    requires t.ptr.comp == PtrOf(t.sub)
    requires !IsBaseTag(t.ptr.tag) && t.ptr.tag !in cfuncs ==> t.sub.None?
    ensures Good(cfuncs, t)
  {
    hide All;
  }

  lemma BaseTreeGood(cfuncs: CFuncs, t: Tree)
    requires t.sub.None? && t.all == {t.ptr} + All(t.kids) && t.ptr !in All(t.kids) && IsBaseTag(t.ptr.tag)
    requires t.ptr.elem == Some(t.elem) && t.ptr.text == t.text && t.ptr.comp == null
    requires GoodAll(cfuncs, t.kids, t.ptr.children)
    ensures Good(cfuncs, t)
  {
    hide All;
  }

  lemma BaseTreeShows(cfuncs: CFuncs, t: Tree, fuel: nat)
    requires t.ptr.tag == t.elem.tag && t.ptr.key == t.elem.Key()
    requires IsBaseTag(t.elem.tag) && t.elem.tag != TEXT_TAG && |t.kids| == |t.elem.children|
    requires Renditions(cfuncs, t.kids, t.elem, fuel)
    ensures Rendition(cfuncs, Some(t), t.elem, fuel)
  {
    ChildrenShow(cfuncs, t, t.elem, |t.kids|, fuel);
    assert Erase(Shown(t).value).children == EraseSeq(ShownAll(t, |t.kids|));
  }

  lemma BareTreeGood(cfuncs: CFuncs, t: Tree)
    requires t.kids == [] && t.all == {t.ptr} + AllOpt(t.sub) && t.ptr !in AllOpt(t.sub)
    requires t.ptr.elem == Some(t.elem) && t.ptr.text == t.text && t.ptr.children == []
    requires t.sub.Some? ==> Good(cfuncs, t.sub.value) && t.ptr.comp == t.sub.value.ptr
    requires t.sub.None? ==> t.ptr.comp == null
    requires t.ptr.tag in cfuncs
    ensures Good(cfuncs, t)
  {
    AllNone();
  }

  lemma ComponentTree(cfuncs: CFuncs, t: Tree, fuel: nat)
    requires t.kids == [] && t.all == {t.ptr} + AllOpt(t.sub) && t.ptr !in AllOpt(t.sub)
    requires t.ptr.elem == Some(t.elem) && t.ptr.text == t.text && t.ptr.children == []
    requires t.sub.Some? ==> Good(cfuncs, t.sub.value) && t.ptr.comp == t.sub.value.ptr
    requires t.sub.None? ==> t.ptr.comp == null
    requires !IsBaseTag(t.elem.tag) && t.elem.tag != "" && t.elem.tag in cfuncs && fuel > 0
    requires t.ptr.tag == t.elem.tag && t.ptr.key == t.elem.Key()
    requires
      var out := OutputElem(cfuncs[t.elem.tag](t.elem));
      if out.None? then t.sub.None? else Rendition(cfuncs, t.sub, out.value, fuel - 1)
    ensures Good(cfuncs, t) && Rendition(cfuncs, Some(t), t.elem, fuel)
  {
    AllNone();
  }

  class RootElem {
    var root: Component?
    var cfuncs: CFuncs
    var compMap: map<nat, Component>
    var nextId: nat
    ghost var live: set<Component>

    /** compMap indexes exactly the live components by id, and new ids are unused. */
    ghost predicate MapOk()
      reads this`compMap, this`nextId, this`live
    {
      && (forall c :: c in live ==> c.id in compMap && compMap[c.id] == c)
      && (forall id :: id in compMap ==> compMap[id] in live && compMap[id].id == id && id < nextId)
    }

    constructor ()
      ensures root == null && cfuncs == map[] && compMap == map[] && live == {} && MapOk()
    {
      root, cfuncs, compMap, nextId, live := null, map[], map[], 0, {};
    }

    method CreateComp(tag: string, key: string) returns (c: Component)
      requires MapOk()
      modifies this`compMap, this`nextId, this`live
      ensures MapOk() && fresh(c) && live == old(live) + {c}
      ensures c.tag == tag && c.key == key && c.elem == None && c.text == "" && c.children == [] && c.comp == null
    {
      c := new Component(nextId, tag, key);
      nextId := nextId + 1;
      compMap := compMap[c.id := c];
      live := live + {c};
    }

    /** unmount of a slot that may be empty. */
    method Unmount(c: Component?, ghost t: Option<Tree>)
      requires MapOk() && AllOpt(t) <= live && c == PtrOf(t) && GoodOpt(cfuncs, t)
      modifies this`compMap, this`live, AllOpt(t)
      ensures MapOk() && live == old(live) - AllOpt(t)
    {
      if c == null {
        return;
      }
      UnmountTree(c, t.value);
    }

    /** unmount: takes the whole tree out of the index. */
    method UnmountTree(c: Component, ghost t: Tree)
      requires MapOk() && t.all <= live && c == t.ptr && Good(cfuncs, t)
      modifies this`compMap, this`live, t.all
      ensures MapOk() && live == old(live) - t.all
      decreases t, 1
    {
      hide All, Good, MapOk;
      PartsOf(cfuncs, t);
      if c.comp != null {
        UnmountTree(c.comp, t.sub.value);
        c.comp := null;
      }
      UnmountAll(c.children, t.kids, t);
      DeleteComp(c);
    }

    method DeleteComp(c: Component)
      requires MapOk() && c in live
      modifies this`compMap, this`live
      ensures MapOk() && live == old(live) - {c}
    {
      compMap := compMap - {c.id};
      live := live - {c};
    }

    method UnmountAll(children: seq<Component?>, ghost kids: seq<Option<Tree>>, ghost t: Tree)
      requires MapOk() && All(kids) <= live && GoodAll(cfuncs, kids, children)
      requires forall i :: 0 <= i < |kids| && kids[i].Some? ==> kids[i].value < t
      modifies this`compMap, this`live, All(kids)
      ensures MapOk() && live == old(live) - All(kids)
      decreases t, 0
    {
      hide MapOk, All, Good;
      AllNone();
      assert kids[..0] == [];
      for i := 0 to |children|
        invariant MapOk() && live == old(live) - All(kids[..i])
        invariant forall j :: i <= j < |kids| ==> GoodOpt(cfuncs, kids[j])
      {
        AllOfKid(kids, i);
        if children[i] != null {
          UnmountTree(children[i], kids[i].value);
        }
        AllPrefix(kids, i);
      }
      assert kids[..|kids|] == kids;
    }

    /** renderText */
    method RenderText(text: string, c: Component)
      modifies c`text
      ensures c.text == text
    {
      if c.text != text {
        c.text := text;
      }
    }

    /** What every render method leaves: the slot holds a good tree for the element, made of old
        components of the slot and new ones, and the index has followed. */
    twostate predicate Rendered(elem: Elem, fuel: nat, before: set<Component>, new c: Component?, new t: Option<Tree>)
      reads this, AllOpt(t)
    {
      && MapOk() && live == old(live) - before + AllOpt(t)
      && (forall p :: p in AllOpt(t) ==> p in before || fresh(p))
      && c == PtrOf(t) && GoodOpt(cfuncs, t)
      && (t.Some? ==> t.value.elem == elem)
      && Rendition(cfuncs, t, elem, fuel)
    }

    /** The head of render: keeps the component of the slot if tag and key match, else replaces it. */
    method Settle(elem: Elem, comp: Component?, ghost t: Option<Tree>) returns (c: Component, ghost cur: Tree)
      requires MapOk() && AllOpt(t) <= live && elem.tag != ""
      requires comp == PtrOf(t) && GoodOpt(cfuncs, t)
      modifies this`compMap, this`nextId, this`live, AllOpt(t)
      ensures MapOk() && live == old(live) - AllOpt(t) + cur.all
      ensures forall p :: p in cur.all ==> p in AllOpt(t) || fresh(p)
      ensures c == cur.ptr && Good(cfuncs, cur) && cur.elem == elem && c.tag == elem.tag && c.key == elem.Key()
      ensures if t.Some? && comp.tag == elem.tag && comp.key == elem.Key() then
                c == comp && cur == t.value.(elem := elem)
              else cur.kids == [] && cur.sub.None?
    {
      hide All, Good, MapOk;
      AllNone();
      var elemKey := elem.Key();
      if comp == null || !(comp.tag == elem.tag && comp.key == elemKey) {
        Unmount(comp, t);
        c := CreateComp(elem.tag, elemKey);
        cur := Tree(c, elem, "", [], None, {c});
      } else {
        c := comp;
        cur := t.value.(elem := elem);
        PartsOf(cfuncs, t.value);
      }
      c.elem := Some(elem);
      Assembled(cfuncs, cur);
    }

    /** render: brings the slot `comp` in line with the element. */
    method Render(elem: Elem, comp: Component?, ghost t: Option<Tree>, ghost fuel: nat)
      returns (c: Component?, ghost t': Option<Tree>)
      requires MapOk() && AllOpt(t) <= live && Renderable(cfuncs, elem, fuel) && Smooth(cfuncs, t, elem, fuel)
      requires comp == PtrOf(t) && GoodOpt(cfuncs, t)
      modifies this`compMap, this`nextId, this`live, AllOpt(t)
      ensures Rendered(elem, fuel, AllOpt(t), c, t')
      ensures comp != null && elem.tag != "" && comp.tag == elem.tag && comp.key == elem.Key() ==> c == comp
      ensures t.Some? && Keeps(t.value, elem) ==> TakesOver(Ptrs(t.value.kids), elem, c.children)
      decreases fuel, elem, 4
    {
      hide MapOk, Good, Renderable, Smooth, Rendition, TakesOver, Ptrs;
      if elem.tag == "" {
        Unmount(comp, t);
        NothingRendered(cfuncs, elem, fuel);
        return null, None;
      }
      ghost var cur;
      c, cur := Settle(elem, comp, t);
      if t.Some? && comp.tag == elem.tag && comp.key == elem.Key() {
        SmoothKept(cfuncs, t.value, elem, fuel);
      } else {
        SmoothBare(cfuncs, cur, elem, fuel);
      }
      ghost var out := RenderInto(elem, c, cur, fuel);
      t' := Some(out);
    }

    /** The rest of render, by kind of tag. */
    method RenderInto(elem: Elem, c: Component, ghost t: Tree, ghost fuel: nat) returns (ghost t': Tree)
      requires MapOk() && t.all <= live && Renderable(cfuncs, elem, fuel) && elem.tag != ""
      requires c == t.ptr && Good(cfuncs, t) && t.elem == elem && c.tag == elem.tag && c.key == elem.Key()
      requires Smooth(cfuncs, Some(t), elem, fuel)
      modifies this`compMap, this`nextId, this`live, t.all
      ensures Rendered(elem, fuel, t.all, c, Some(t'))
      ensures IsBaseTag(elem.tag) && elem.tag != TEXT_TAG ==> TakesOver(Ptrs(t.kids), elem, c.children)
      ensures elem.tag == TEXT_TAG ==> c.text == elem.text
      ensures !IsBaseTag(elem.tag) && elem.tag !in cfuncs ==> c.text == "<" + elem.tag + ">"
      decreases fuel, elem, 3
    {
      if elem.tag == TEXT_TAG {
        AllOfKids(t.kids);
        RenderText(elem.text, c);
        t' := t.(text := elem.text);
      } else if IsBaseTag(elem.tag) {
        t' := RenderSimple(elem, c, t, fuel);
      } else if elem.tag !in cfuncs {
        AllOfKids(t.kids);
        RenderText("<" + elem.tag + ">", c);
        t' := t.(text := "<" + elem.tag + ">");
      } else {
        t' := RenderComponent(elem, c, t, fuel);
      }
    }

    /** renderSimple */
    method RenderSimple(elem: Elem, c: Component, ghost t: Tree, ghost fuel: nat) returns (ghost t': Tree)
      requires MapOk() && t.all <= live && Renderable(cfuncs, elem, fuel) && IsBaseTag(elem.tag) && elem.tag != TEXT_TAG
      requires c == t.ptr && Good(cfuncs, t) && t.elem == elem && c.tag == elem.tag && c.key == elem.Key()
      requires Smooth(cfuncs, Some(t), elem, fuel)
      modifies this`compMap, this`nextId, this`live, t.all
      ensures Rendered(elem, fuel, t.all, c, Some(t'))
      ensures TakesOver(Ptrs(t.kids), elem, c.children)
      decreases fuel, elem, 1
    {
      hide All, Good, MapOk, Rendition, Renderable, SmoothKids, TakesOver, Ptrs;
      PartsOf(cfuncs, t);
      if c.comp != null {
        UnmountTree(c.comp, t.sub.value);
        c.comp := null;
      }
      ghost var kids;
      var newChildren;
      OldChildren(t.kids, c.children);
      newChildren, kids := RenderChildren(elem, c.children, t.kids, fuel);
      c.children := newChildren;
      t' := Tree(c, elem, t.text, kids, None, {c} + All(kids));
      BaseTreeGood(cfuncs, t');
      BaseTreeShows(cfuncs, t', fuel);
    }

    /** renderComponent */
    method RenderComponent(elem: Elem, c: Component, ghost t: Tree, ghost fuel: nat) returns (ghost t': Tree)
      requires MapOk() && t.all <= live && Renderable(cfuncs, elem, fuel)
      requires elem.tag != "" && elem.tag != TEXT_TAG && !IsBaseTag(elem.tag) && elem.tag in cfuncs
      requires c == t.ptr && Good(cfuncs, t) && t.elem == elem && c.tag == elem.tag && c.key == elem.Key()
      requires Smooth(cfuncs, Some(t), elem, fuel)
      modifies this`compMap, this`nextId, this`live, t.all
      ensures Rendered(elem, fuel, t.all, c, Some(t'))
      decreases fuel, elem, 2
    {
      hide All, Good, MapOk, Rendition, Renderable;
      PartsOf(cfuncs, t);
      UnmountAll(c.children, t.kids, t);
      c.children := [];
      ghost var bare := t.(kids := [], all := {c} + AllOpt(t.sub));
      BareTreeGood(cfuncs, bare);
      t' := RenderOutput(elem, c, bare, fuel);
    }

    /** The rest of renderComponent: run the component and render what it returns. */
    method RenderOutput(elem: Elem, c: Component, ghost t: Tree, ghost fuel: nat) returns (ghost t': Tree)
      requires MapOk() && t.all <= live && Renderable(cfuncs, elem, fuel)
      requires elem.tag != "" && elem.tag != TEXT_TAG && !IsBaseTag(elem.tag) && elem.tag in cfuncs
      requires c == t.ptr && Good(cfuncs, t) && t.kids == [] && t.elem == elem && c.tag == elem.tag
      requires c.key == elem.Key() && Smooth(cfuncs, Some(t), elem, fuel)
      modifies this`compMap, this`nextId, this`live, t.all
      ensures Rendered(elem, fuel, t.all, c, Some(t'))
      decreases fuel, elem, 1
    {
      hide All, Good, GoodAll, MapOk, Rendition, Smooth, Renderable, OutputElem, IsBaseTag;
      SmoothOutput(cfuncs, t, elem, fuel);
      PartsOf(cfuncs, t);
      AllNone();
      var rtnElem := OutputElem(cfuncs[elem.tag](elem));
      ghost var sub := RenderSub(elem, rtnElem, c, t.sub, fuel);
      t' := Tree(c, elem, t.text, [], sub, {c} + AllOpt(sub));
      ComponentTree(cfuncs, t', fuel);
    }

    /** The component below a component, or none if it has returned nothing. */
    method RenderSub(elem: Elem, out: Option<Elem>, c: Component, ghost t: Option<Tree>, ghost fuel: nat)
      returns (ghost sub: Option<Tree>)
      requires MapOk() && AllOpt(t) <= live && c in live && c !in AllOpt(t) && c.comp == PtrOf(t) && GoodOpt(cfuncs, t)
      requires fuel > 0
      requires out.Some? ==> Renderable(cfuncs, out.value, fuel - 1) && Smooth(cfuncs, t, out.value, fuel - 1)
      modifies this`compMap, this`nextId, this`live, AllOpt(t), c`comp
      ensures MapOk() && live == old(live) - AllOpt(t) + AllOpt(sub) && c !in AllOpt(sub)
      ensures forall p :: p in AllOpt(sub) ==> p in AllOpt(t) || fresh(p)
      ensures c.comp == PtrOf(sub) && GoodOpt(cfuncs, sub)
      ensures if out.None? then sub.None? else Rendition(cfuncs, sub, out.value, fuel - 1)
      decreases fuel, elem, 0
    {
      hide Good, MapOk, Rendition, Smooth, Renderable;
      if out.None? {
        Unmount(c.comp, t);
        c.comp := null;
        return None;
      }
      var comp;
      comp, sub := Render(out.value, c.comp, t, fuel - 1);
      c.comp := comp;
    }

    /** The first loop of renderChildren: old children by tag and key or position; of two with the
        same slot the later one wins. It panics exactly at a nil child. `at` is ghost: where each one
        stands. */
    method IndexChildren(cur: seq<Component?>)
      returns (panicked: bool, curCM: map<ChildKey, Component>, ghost at: map<ChildKey, nat>)
      ensures panicked <==> !NoNil(cur)
      ensures !panicked ==> curCM.Keys == at.Keys && IsIndex(cur, at) && forall k :: k in at ==> curCM[k] == cur[at[k]]
    {
      panicked, curCM, at := false, map[], map[];
      for idx := 0 to |cur|
        invariant curCM.Keys == at.Keys && forall j :: 0 <= j < idx ==> cur[j] != null
        invariant forall k :: k in at ==>
                      at[k] < idx && curCM[k] == cur[at[k]] && ChildKeyOf(cur[at[k]].tag, cur[at[k]].key, at[k]) == k
        invariant forall j :: 0 <= j < idx ==>
                                ChildKeyOf(cur[j].tag, cur[j].key, j) in at
                                    && j <= at[ChildKeyOf(cur[j].tag, cur[j].key, j)]
      {
        var child := cur[idx];
        if child == null {
          return true, map[], map[];
        }
        var k := if child.key != "" then ChildKey(child.tag, 0, child.key) else ChildKey(child.tag, idx, "");
        curCM := curCM[k := child];
        at := at[k := idx];
      }
    }

    /** The state of renderChildren between two steps: the trees `ts` of the old children at the
        indices in `used` are consumed, the new trees so far are ts'. */
    ghost predicate Midway(live0: set<Component>, ts: seq<Option<Tree>>, used: set<nat>, ts': seq<Option<Tree>>,
                           newChildren: seq<Component?>)
      reads this, All(ts), All(ts')
    {
      && MapOk() && live == live0 - AllAt(ts, used) + All(ts')
      && GoodAll(cfuncs, ts', newChildren)
      && (forall p :: p in All(ts') ==> p in AllAt(ts, used) || p !in live0)
      && (forall j :: 0 <= j < |ts| && j !in used ==> AllOpt(ts[j]) <= All(ts) && GoodOpt(cfuncs, ts[j]))
    }

    lemma MidwayStart(ts: seq<Option<Tree>>, cur: seq<Component?>)
      requires MapOk() && GoodAll(cfuncs, ts, cur)
      ensures Midway(live, ts, {}, [], [])
    {
      AllNone();
      AllAtEnds(ts, {});
    }

    lemma OldChildren(ts: seq<Option<Tree>>, cur: seq<Component?>)
      requires GoodAll(cfuncs, ts, cur)
      ensures |cur| == |ts| && Disjoint(ts) && cur == Ptrs(ts)
      ensures forall i :: 0 <= i < |ts| ==> cur[i] == PtrOf(ts[i]) && AllOpt(ts[i]) <= All(ts)
      ensures forall i, j :: 0 <= i < j < |cur| && cur[i] != null ==> cur[i] != cur[j]
    {
      forall i, j | 0 <= i < j < |cur| && cur[i] != null
        ensures cur[i] != cur[j]
      {
        assert cur[i] in AllOpt(ts[i]) && (cur[j] != null ==> cur[j] in AllOpt(ts[j]));
      }
    }

    /** One element of renderChildren, matched with old child j if there is one. */
    method RenderChild(e: Elem, old_: Component?, ghost j: Option<nat>, ghost live0: set<Component>,
                       ghost ts: seq<Option<Tree>>, ghost used: set<nat>, ghost ts': seq<Option<Tree>>,
                       ghost newChildren: seq<Component?>, ghost fuel: nat)
      returns (c: Component?, ghost t: Option<Tree>)
      requires Midway(live0, ts, used, ts', newChildren) && All(ts) <= live0 && Disjoint(ts)
      requires j.Some? ==> j.value < |ts| && j.value !in used && old_ == PtrOf(ts[j.value]) != null
      requires j.None? ==> old_ == null
      requires Renderable(cfuncs, e, fuel)
      requires j.Some? ==> Smooth(cfuncs, ts[j.value], e, fuel)
      modifies this`compMap, this`nextId, this`live, if j.Some? then AllOpt(ts[j.value]) else {}
      ensures Midway(live0, ts, if j.Some? then used + {j.value} else used, ts' + [t], newChildren + [c])
      ensures forall p :: p in All(ts' + [t]) ==> p in All(ts') || p in All(ts) || fresh(p)
      ensures Rendition(cfuncs, t, e, fuel)
      ensures old_ != null && e.tag != "" && old_.tag == e.tag && old_.key == e.Key() ==> c == old_
      decreases fuel, e, 5
    {
      hide MapOk, Good, All, AllAt, Rendition, Renderable;
      ghost var slot := if j.Some? then ts[j.value] else None;
      OldChildApart(live0, ts, used, ts', j);
      c, t := Render(e, old_, slot, fuel);
      AllAppend(ts', t);
    }

    /** The last loop of renderChildren. */
    method Sweep(cur: seq<Component?>, usedMap: set<Component>, ghost live0: set<Component>,
                 ghost ts: seq<Option<Tree>>, ghost used: set<nat>, ghost ts': seq<Option<Tree>>,
                 ghost newChildren: seq<Component?>)
      requires Midway(live0, ts, used, ts', newChildren) && All(ts) <= live0 && Disjoint(ts)
      requires |cur| == |ts| && NoNil(cur) && forall j :: 0 <= j < |ts| ==> cur[j] == PtrOf(ts[j])
      requires forall j :: 0 <= j < |cur| ==> (cur[j] in usedMap <==> j in used)
      modifies this`compMap, this`live, All(ts)
      ensures MapOk() && live == live0 - All(ts) + All(ts') && GoodAll(cfuncs, ts', newChildren)
      ensures forall p :: p in All(ts') ==> p in All(ts) || p !in live0
    {
      hide MapOk, Good, All, AllAt;
      ghost var gone: set<nat> := used;
      AllAtEnds(ts, used);
      for j := 0 to |cur|
        invariant Midway(live0, ts, gone, ts', newChildren)
        invariant forall k :: k in gone <==> k in used || (0 <= k < j)
      {
        if cur[j] !in usedMap {
          OldChildApart(live0, ts, gone, ts', Some(j));
          UnmountTree(cur[j], ts[j].value);
          gone := gone + {j};
        }
      }
      AllAtEnds(ts, gone);
    }

    static lemma UsedNext(cur: seq<Component?>, usedMap: set<Component>, used: set<nat>, a: nat)
      requires NoNil(cur) && forall i, j :: 0 <= i < j < |cur| ==> cur[i] != cur[j]
      requires forall j :: 0 <= j < |cur| ==> (cur[j] in usedMap <==> j in used)
      requires a < |cur|
      ensures forall j :: 0 <= j < |cur| ==> (cur[j] in usedMap + {cur[a]} <==> j in used + {a})
    {
    }

    /** renderChildren: matches the elements with the old children by tag and key, or by tag and
        position for those without a key, renders each, and unmounts what is left over. */
    method RenderChildren(elem: Elem, cur: seq<Component?>, ghost ts: seq<Option<Tree>>, ghost fuel: nat)
      returns (newChildren: seq<Component?>, ghost ts': seq<Option<Tree>>)
      requires MapOk() && All(ts) <= live && GoodAll(cfuncs, ts, cur)
      requires Renderable(cfuncs, elem, fuel) && IsBaseTag(elem.tag) && elem.tag != TEXT_TAG
      requires SmoothKids(cfuncs, ts, elem, fuel)
      modifies this`compMap, this`nextId, this`live, All(ts)
      ensures MapOk() && live == old(live) - All(ts) + All(ts')
      ensures forall p :: p in All(ts') ==> p in All(ts) || fresh(p)
      ensures |newChildren| == |elem.children| && GoodAll(cfuncs, ts', newChildren)
      ensures Renditions(cfuncs, ts', elem, fuel) && TakesOver(cur, elem, newChildren)
      decreases fuel, elem, 0
    {
      hide MapOk, Good, All, AllAt, Rendition, Renditions, TakesOver, Midway, Taken, GoodAll, Smooth, SmoothKids, Apart;
      OldChildren(ts, cur);
      SmoothKidsAre(cfuncs, ts, elem, fuel);
      var curCM, panicked;
      ghost var at;
      panicked, curCM, at := IndexChildren(cur);
      newChildren, ts' := [], [];
      ghost var used: set<nat> := {};
      ghost var live0 := live;
      var usedMap: set<Component> := {};
      MidwayStart(ts, cur);
      TakenNone(elem, at);
      AllNone();
      NoRenditions(cfuncs, cur, elem, fuel);
      for idx := 0 to |elem.children|
        invariant |newChildren| == |ts'| == idx && used == Taken(elem, at, idx)
        invariant Midway(live0, ts, used, ts', newChildren)
        invariant forall p :: p in All(ts') ==> p in All(ts) || fresh(p)
        invariant forall j :: 0 <= j < |cur| ==> (cur[j] in usedMap <==> j in used)
        invariant Renditions(cfuncs, ts', elem, fuel) && TakesOver(cur, elem, newChildren)
      {
        TakenNext(cur, elem, at, idx);
        var child := elem.children[idx];
        var elemKey := child.Key();
        var slot := if elemKey != "" then ChildKey(child.tag, 0, elemKey) else ChildKey(child.tag, idx, "");
        assert slot == SlotOf(elem, idx);
        var curChild: Component? := null;
        ghost var j := None;
        if slot in curCM {
          curChild := curCM[slot];
          UsedNext(cur, usedMap, used, at[slot]);
          usedMap := usedMap + {curCM[slot]};
          j := Some(at[slot]);
          SmoothKid(cfuncs, ts, elem, fuel, idx, at);
        }
        ghost var t;
        var c;
        c, t := RenderChild(child, curChild, j, live0, ts, used, ts', newChildren, fuel);
        RenditionsNext(cfuncs, ts', t, elem, fuel);
        TakesOverNext(cur, at, elem, newChildren, c);
        newChildren, ts' := newChildren + [c], ts' + [t];
        used := Taken(elem, at, idx + 1);
      }
      Sweep(cur, usedMap, live0, ts, used, ts', newChildren);
    }

    // ----- output -----

    /** convertToVDom */
    method ConvertToVDom(c: Component, ghost t: Tree) returns (v: Option<VNode>)
      requires c == t.ptr && Good(cfuncs, t)
      ensures v == Shown(t)
      decreases t, 1
    {
      if c.tag == TEXT_TAG {
        return Some(VText(c.text));
      }
      if IsBaseTag(c.tag) {
        var node := ConvertBaseToVDom(c, t);
        return Some(node);
      }
      if c.comp == null {
        return None;
      }
      v := ConvertToVDom(c.comp, t.sub.value);
    }

    /** convertBaseToVDom */
    method ConvertBaseToVDom(c: Component, ghost t: Tree) returns (node: VNode)
      requires c == t.ptr && Good(cfuncs, t) && IsBaseTag(c.tag) && c.tag != TEXT_TAG
      ensures Some(node) == Shown(t)
      decreases t, 0
    {
      var props := map[];
      if c.elem.Some? {
        props := ConvertProps(c.elem.value.props);
      }
      var children := [];
      for i := 0 to |c.children|
        invariant children == ShownAll(t, i)
      {
        if c.children[i] != null {
          var child := ConvertToVDom(c.children[i], t.kids[i].value);
          if child.Some? {
            children := children + [child.value];
          }
        }
      }
      node := VElem(c.id, c.tag, props, children);
    }
  }

  // ----- the root -----

  /** A root with the tree it holds. */
  class Renderer {
    const r: RootElem
    ghost var tree: Option<Tree>

    /** The tree is good, and the index holds exactly the components reachable from the root. */
    ghost predicate Valid()
      reads this, r, AllOpt(tree)
    {
      && r.MapOk() && r.live == AllOpt(tree)
      && r.root == PtrOf(tree) && GoodOpt(r.cfuncs, tree)
    }

    /** MakeRoot */
    constructor ()
      ensures Valid() && fresh(r) && tree.None? && r.compMap == map[] && r.cfuncs == map[]
    {
      r := new RootElem();
      tree := None;
    }

    /** RegisterComponent */
    method RegisterComponent(name: string, cfunc: CFunc)
      requires Valid()
      modifies r`cfuncs
      ensures Valid() && r.cfuncs == old(r.cfuncs)[name := cfunc] && r.compMap == old(r.compMap)
    {
      if r.root != null {
        SettledGrows(r.cfuncs, r.cfuncs[name := cfunc], tree.value);
      }
      r.cfuncs := r.cfuncs[name := cfunc];
    }

    /** Render: over any tree that allows it, the root now shows what the element expands to, and the
        index holds exactly the reachable components. */
    method Render(elem: Elem, ghost fuel: nat)
      requires Valid() && Renderable(r.cfuncs, elem, fuel) && Smooth(r.cfuncs, tree, elem, fuel)
      modifies this`tree, r`root, r`compMap, r`nextId, r`live, AllOpt(tree)
      ensures Valid() && r.cfuncs == old(r.cfuncs)
      ensures fresh(AllOpt(tree) - old(AllOpt(tree)))
      ensures Rendition(r.cfuncs, tree, elem, fuel)
      ensures old(tree).Some? && Keeps(old(tree).value, elem) ==>
                r.root != null && TakesOver(Ptrs(old(tree).value.kids), elem, r.root.children)
      ensures old(r.root) != null && elem.tag != "" && old(r.root).tag == elem.tag && old(r.root).key == elem.Key() ==>
                  r.root == old(r.root)
    {
      hide Good, RootElem.MapOk, Rendition, Smooth, Renderable;
      ghost var t;
      var c;
      c, t := r.Render(elem, r.root, tree, fuel);
      r.root := c;
      tree := t;
    }

    /** MakeVDom */
    method MakeVDom() returns (v: Option<VNode>)
      requires Valid()
      ensures v == if tree.Some? then Shown(tree.value) else None
    {
      if r.root == null {
        return None;
      }
      v := r.ConvertToVDom(r.root, tree.value);
    }
  }

  lemma SettledGrows(cfuncs: CFuncs, more: CFuncs, t: Tree)
    requires Settled(cfuncs, t) && cfuncs.Keys <= more.Keys
    ensures Settled(more, t)
  {
  }

  /** Rendering e over any previous tree that allows it leaves the same output, up to ids, as rendering
      it with a new root. */
  method SameAsFromScratch(a: Renderer, e: Elem, ghost fuel: nat)
    returns (reconciled: Option<VNode>, scratch: Option<VNode>)
    requires a.Valid() && Renderable(a.r.cfuncs, e, fuel) && Smooth(a.r.cfuncs, a.tree, e, fuel)
    modifies a`tree, a.r`root, a.r`compMap, a.r`nextId, a.r`live, AllOpt(a.tree)
    ensures a.Valid()
    ensures EraseOpt(reconciled) == EraseOpt(scratch) == Expand(a.r.cfuncs, e, fuel)
  {
    hide Good, RootElem.MapOk, Smooth;
    a.Render(e, fuel);
    reconciled := a.MakeVDom();
    scratch := FromScratch(a.r.cfuncs, e, fuel);
  }

  /** A new root shows any element, with siblings of equal keys and without tags too. */
  method FromScratch(cfuncs: CFuncs, e: Elem, ghost fuel: nat) returns (v: Option<VNode>)
    requires Renderable(cfuncs, e, fuel)
    ensures EraseOpt(v) == Expand(cfuncs, e, fuel)
  {
    var b := new Renderer();
    b.r.cfuncs := cfuncs;
    b.Render(e, fuel);
    v := b.MakeVDom();
  }

  /** Any number of tidy elements, one rendered over the other: every one is shown right. */
  method RenderEach(a: Renderer, es: seq<Elem>, ghost fuel: nat) returns (shown: seq<Option<VNode>>)
    requires a.Valid() && FullOpt(a.tree)
    requires forall i :: 0 <= i < |es| ==> Renderable(a.r.cfuncs, es[i], fuel) && Tidy(a.r.cfuncs, es[i], fuel)
    modifies a`tree, a.r`root, a.r`compMap, a.r`nextId, a.r`live, AllOpt(a.tree)
    ensures a.Valid() && FullOpt(a.tree) && a.r.cfuncs == old(a.r.cfuncs) && |shown| == |es|
    ensures forall i :: 0 <= i < |es| ==> EraseOpt(shown[i]) == Expand(a.r.cfuncs, es[i], fuel)
  {
    hide Good, RootElem.MapOk, Smooth, Full, Tidy, Renderable, Expand;
    shown := [];
    for n := 0 to |es|
      invariant a.Valid() && FullOpt(a.tree) && a.r.cfuncs == old(a.r.cfuncs) && |shown| == n
      invariant fresh(AllOpt(a.tree) - old(AllOpt(a.tree)))
      invariant forall i :: 0 <= i < n ==> EraseOpt(shown[i]) == Expand(a.r.cfuncs, es[i], fuel)
    {
      TidyIsSmooth(a.r.cfuncs, a.tree, es[n], fuel);
      a.Render(es[n], fuel);
      var v := a.MakeVDom();
      shown := shown + [v];
    }
  }

  /** A child that has a key stays the same component wherever it moves among its siblings; one without
      a key does so as long as it stays where it is. */
  method ChildIsKept(a: Renderer, e: Elem, j: nat, next: Elem, i: nat, ghost fuel: nat)
    returns (was: Component?, now: Component?)
    requires a.Valid() && FullOpt(a.tree)
    requires Renderable(a.r.cfuncs, e, fuel) && Tidy(a.r.cfuncs, e, fuel)
    requires Renderable(a.r.cfuncs, next, fuel) && Tidy(a.r.cfuncs, next, fuel)
    requires IsBaseTag(e.tag) && e.tag != TEXT_TAG && next.tag == e.tag && next.Key() == e.Key()
    requires j < |e.children| && i < |next.children| && e.children[j].tag == next.children[i].tag
    requires
      var p, q := e.children[j].props, next.children[i].props;
      || (exists k :: k != "" && "key" in p && "key" in q && p["key"] == Str(k) && q["key"] == Str(k))
      || ("key" !in p && "key" !in q && i == j)
    modifies a`tree, a.r`root, a.r`compMap, a.r`nextId, a.r`live, AllOpt(a.tree)
    ensures a.Valid() && was == now != null && was.tag == e.children[j].tag
  {
    hide Good, RootElem.MapOk, Smooth, Renderable;
    TidyIsSmooth(a.r.cfuncs, a.tree, e, fuel);
    a.Render(e, fuel);
    ChildPointers(a.r.cfuncs, a.tree.value);
    ghost var cur := Ptrs(a.tree.value.kids);
    was := a.r.root.children[j];
    TidyIsSmooth(a.r.cfuncs, a.tree, next, fuel);
    KeyFinds(cur, e, j, next.children[i], i);
    a.Render(next, fuel);
    ChildPointers(a.r.cfuncs, a.tree.value);
    now := a.r.root.children[i];
  }

  lemma ChildPointers(cfuncs: CFuncs, t: Tree)
    requires Good(cfuncs, t)
    ensures t.ptr.children == Ptrs(t.kids)
  {
  }

  lemma KeyFinds(cur: seq<Component?>, e: Elem, j: nat, child: Elem, i: nat)
    requires NoNil(cur) && |cur| == |e.children| && j < |cur| && DistinctKeys(e.children)
    requires forall k :: 0 <= k < |cur| ==> cur[k].tag == e.children[k].tag && cur[k].key == e.children[k].Key()
    requires child.tag == e.children[j].tag && child.Key() == e.children[j].Key() && (child.Key() == "" ==> i == j)
    ensures LastInSlot(cur, j, child, i)
  {
  }

  // ----- what goes wrong otherwise -----

  /** After a render that leaves a child without a tag, the first loop of the next renderChildren on that
      parent panics; so every element that keeps the root panics. */
  method NilChildPanics(a: Renderer, e: Elem, i: nat, ghost fuel: nat) returns (panicked: bool)
    requires a.Valid() && Renderable(a.r.cfuncs, e, fuel) && Smooth(a.r.cfuncs, a.tree, e, fuel)
    requires IsBaseTag(e.tag) && e.tag != TEXT_TAG && i < |e.children| && e.children[i].tag == ""
    modifies a`tree, a.r`root, a.r`compMap, a.r`nextId, a.r`live, AllOpt(a.tree)
    ensures a.Valid() && panicked
    ensures forall next: Elem :: next.tag == e.tag && next.Key() == e.Key() ==> !Smooth(a.r.cfuncs, a.tree, next, fuel)
  {
    a.Render(e, fuel);
    assert Ptrs(a.tree.value.kids)[i] == null;
    assert a.r.root.children[i] == null;
    var curCM;
    ghost var at;
    panicked, curCM, at := a.r.IndexChildren(a.r.root.children);
  }

  /** Two elements that find the same old child, rendered one after the other as renderChildren does:
      both positions get that one component, and it shows the later element. */
  method SharedChild(r: RootElem, e0: Elem, e1: Elem, child: Component, ghost t: Tree, ghost fuel: nat)
    returns (c0: Component?, c1: Component?, ghost t': Option<Tree>)
    requires r.MapOk() && t.all <= r.live && child == t.ptr && Good(r.cfuncs, t) && Full(t)
    requires e0.tag == e1.tag == child.tag != "" && e0.Key() == e1.Key() == child.key
    requires Renderable(r.cfuncs, e0, fuel) && Tidy(r.cfuncs, e0, fuel)
    requires Renderable(r.cfuncs, e1, fuel) && Tidy(r.cfuncs, e1, fuel)
    modifies r`compMap, r`nextId, r`live, t.all
    ensures c0 == c1 == child && PtrOf(t') == child && GoodOpt(r.cfuncs, t')
    ensures ShowsAs(r.cfuncs, t', e1, fuel)
  {
    hide Good, RootElem.MapOk, Smooth, Full, Tidy, Renderable, ShowsAs;
    ghost var t0;
    TidyIsSmooth(r.cfuncs, Some(t), e0, fuel);
    c0, t0 := r.Render(e0, child, Some(t), fuel);
    TidyIsSmooth(r.cfuncs, t0, e1, fuel);
    c1, t' := r.Render(e1, c0, t0, fuel);
  }

  /** The fuel is only a bound: once an element is renderable, more fuel changes nothing. */
  lemma {:induction false} ExpandStable(cfuncs: CFuncs, e: Elem, n: nat, m: nat)
    requires Renderable(cfuncs, e, n) && n <= m
    ensures Renderable(cfuncs, e, m) && Expand(cfuncs, e, m) == Expand(cfuncs, e, n)
    decreases n, e, 1
  {
    if e.tag == "" || e.tag == TEXT_TAG {
    } else if IsBaseTag(e.tag) {
      forall i | 0 <= i < |e.children|
        ensures Renderable(cfuncs, e.children[i], m)
        ensures Expand(cfuncs, e.children[i], m) == Expand(cfuncs, e.children[i], n)
      {
        ExpandStable(cfuncs, e.children[i], n, m);
      }
      ExpandAllStable(cfuncs, e, |e.children|, n, m);
    } else if e.tag in cfuncs {
      var out := OutputElem(cfuncs[e.tag](e));
      if out.Some? {
        ExpandStable(cfuncs, out.value, n - 1, m - 1);
      }
    }
  }

  lemma {:induction false} ExpandAllStable(cfuncs: CFuncs, e: Elem, k: nat, n: nat, m: nat)
    requires k <= |e.children|
    requires forall i :: 0 <= i < k ==> Expand(cfuncs, e.children[i], m) == Expand(cfuncs, e.children[i], n)
    ensures ExpandAll(cfuncs, e, k, m) == ExpandAll(cfuncs, e, k, n)
    decreases k
  {
    if k > 0 {
      ExpandAllStable(cfuncs, e, k - 1, n, m);
    }
  }
}
