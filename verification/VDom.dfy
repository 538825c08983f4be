/** Elements, and what rendering one from scratch shows. */
module VDom {
  import opened Basics

  const TEXT_TAG := "#text"
  const FRAGMENT_TAG := "#fragment"
  const KEY_PROP := "key"

  datatype PropVal = Str(s: string) | Func(id: nat) | ServerFunc | Nil | Other(n: int)

  type Props = map<string, PropVal>

  datatype Elem = Elem(tag: string, props: Props, children: seq<Elem>, text: string)
  {
    /** "" stands for no key. */
    function Key(): string {
      if KEY_PROP in props && props[KEY_PROP].Str? then props[KEY_PROP].s else ""
    }
  }

  /** A pure component: its output depends on its element alone. The result is the list of elements
      that the returned value flattens to. */
  type CFunc = Elem -> seq<Elem>

  type CFuncs = map<string, CFunc>

  /** The output sent to the front end. */
  datatype VNode = VText(text: string) | VElem(id: nat, tag: string, props: Props, children: seq<VNode>)

  /** unicode.IsLower of one byte. */
  predicate IsLower(c: char) {
    'a' <= c <= 'z' || c as int == 0xB5 || (0xDF <= c as int <= 0xFF && c as int != 0xF7)
  }

  predicate IsWaveTag(tag: string) {
    "wave:" <= tag || "w:" <= tag
  }

  predicate IsBaseTag(tag: string) {
    |tag| > 0 && (tag[0] == '#' || IsLower(tag[0]) || IsWaveTag(tag))
  }

  /** convertPropsToVDom: functions become references to the server, nils vanish. */
  function ConvertProps(props: Props): Props {
    map k | k in props && props[k] != Nil :: if props[k].Func? then ServerFunc else props[k]
  }

  /** The one element a component's output stands for, if any. */
  function OutputElem(out: seq<Elem>): Option<Elem> {
    if out == [] then None
    else if |out| == 1 then Some(out[0])
    else Some(Elem(FRAGMENT_TAG, map[], out, ""))
  }

  /** What element e shows, worked out from scratch with no component tree at all; ids are zero.
      `fuel` bounds the nesting of components. */
  function Expand(cfuncs: CFuncs, e: Elem, fuel: nat): Option<VNode>
    decreases fuel, e, 1
  {
    if e.tag == "" then None
    else if e.tag == TEXT_TAG then Some(VText(e.text))
    else if IsBaseTag(e.tag) then Some(VElem(0, e.tag, ConvertProps(e.props), ExpandAll(cfuncs, e, |e.children|, fuel)))
    else if e.tag !in cfuncs || fuel == 0 then None
    else
      var out := OutputElem(cfuncs[e.tag](e));
      if out.None? then None else Expand(cfuncs, out.value, fuel - 1)
  }

  /** The visible ones among the first n children. */
  function ExpandAll(cfuncs: CFuncs, e: Elem, n: nat, fuel: nat): seq<VNode>
    requires n <= |e.children|
    decreases fuel, e, 0, n
  {
    if n == 0 then []
    else
      var last := Expand(cfuncs, e.children[n - 1], fuel);
      ExpandAll(cfuncs, e, n - 1, fuel) + if last.Some? then [last.value] else []
  }

  // ----- what that comes to -----

  /** What is visible of a list of elements, in order. */
  function Visible(cfuncs: CFuncs, es: seq<Elem>, fuel: nat): seq<VNode>
    decreases |es|
  {
    if es == [] then []
    else
      var first := Expand(cfuncs, es[0], fuel);
      (if first.Some? then [first.value] else []) + Visible(cfuncs, es[1..], fuel)
  }

  lemma {:induction false} VisibleAppend(cfuncs: CFuncs, es: seq<Elem>, e: Elem, fuel: nat)
    ensures Visible(cfuncs, es + [e], fuel) ==
            Visible(cfuncs, es, fuel) +
            if Expand(cfuncs, e, fuel).Some? then [Expand(cfuncs, e, fuel).value] else []
    decreases |es|
  {
    hide Expand;
    if es == [] {
      assert [e][1..] == [];
    } else {
      assert (es + [e])[1..] == es[1..] + [e];
      VisibleAppend(cfuncs, es[1..], e, fuel);
    }
  }

  lemma {:induction false} ExpandAllVisible(cfuncs: CFuncs, e: Elem, n: nat, fuel: nat)
    requires n <= |e.children|
    ensures ExpandAll(cfuncs, e, n, fuel) == Visible(cfuncs, e.children[..n], fuel)
    decreases n
  {
    if n > 0 {
      ExpandAllVisible(cfuncs, e, n - 1, fuel);
      VisibleAppend(cfuncs, e.children[..n - 1], e.children[n - 1], fuel);
      assert e.children[..n] == e.children[..n - 1] + [e.children[n - 1]];
    }
  }

  /** Exactly the tags that start with '#' or a small letter (of ASCII or, byte for byte, of Latin-1) are
      base tags; "wave:" tags are covered by that. All others, such as those that start with a capital
      letter, are components. */
  lemma TagKinds(tag: string)
    requires tag != ""
    ensures
      var c := tag[0] as int;
      IsBaseTag(tag) <==>
        tag[0] == '#' || 'a' <= tag[0] <= 'z' || c == 0xB5 || 0xDF <= c <= 0xF6 || 0xF8 <= c <= 0xFF
    ensures IsBaseTag("#text") && IsBaseTag("#fragment") && IsBaseTag("wave:term") && !IsBaseTag("App")
  {
  }

  /** A base element shows its tag, the visible ones of its children in order, and its properties: nils
      vanish, functions are references to the server, everything else stays. */
  lemma BaseShows(cfuncs: CFuncs, e: Elem, fuel: nat)
    requires IsBaseTag(e.tag) && e.tag != TEXT_TAG
    ensures
      var v := Expand(cfuncs, e, fuel);
      && v.Some? && v.value.VElem? && v.value.id == 0 && v.value.tag == e.tag
      && v.value.children == Visible(cfuncs, e.children, fuel)
      && (forall k :: k in v.value.props <==> k in e.props && e.props[k] != Nil)
      && (forall k :: k in v.value.props ==>
            v.value.props[k] == if e.props[k].Func? then ServerFunc else e.props[k])
  {
    ExpandAllVisible(cfuncs, e, |e.children|, fuel);
    assert e.children[..|e.children|] == e.children;
  }

  /** A component shows nothing if it returns nothing, what it returns if that is one element, and
      otherwise a fragment with everything visible that it returns, in order. */
  lemma ComponentShows(cfuncs: CFuncs, e: Elem, fuel: nat)
    requires e.tag != "" && e.tag != TEXT_TAG && !IsBaseTag(e.tag) && e.tag in cfuncs && fuel > 0
    ensures
      var out := cfuncs[e.tag](e);
      && (|out| == 0 ==> Expand(cfuncs, e, fuel) == None)
      && (|out| == 1 ==> Expand(cfuncs, e, fuel) == Expand(cfuncs, out[0], fuel - 1))
      && (|out| > 1 ==> Expand(cfuncs, e, fuel) ==
                        Some(VElem(0, "#fragment", map[], Visible(cfuncs, out, fuel - 1))))
  {
    var out := cfuncs[e.tag](e);
    if |out| > 1 {
      var fragment := OutputElem(out).value;
      BaseShows(cfuncs, fragment, fuel - 1);
      assert ConvertProps(map[]) == map[];
    }
  }

  /** No two siblings share both a non-empty key and a tag. */
  predicate DistinctKeys(elems: seq<Elem>) {
    forall i, j :: 0 <= i < j < |elems| && elems[i].Key() != "" && elems[i].Key() == elems[j].Key() ==>
        elems[i].tag != elems[j].tag
  }

  /** Components nest at most `fuel` deep. */
  ghost predicate Renderable(cfuncs: CFuncs, e: Elem, fuel: nat)
    decreases fuel, e
  {
    if e.tag == "" || e.tag == TEXT_TAG then true
    else if IsBaseTag(e.tag) then forall i :: 0 <= i < |e.children| ==> Renderable(cfuncs, e.children[i], fuel)
    else if e.tag !in cfuncs then true
    else
      && fuel > 0
      && var out := OutputElem(cfuncs[e.tag](e));
         out.Some? ==> Renderable(cfuncs, out.value, fuel - 1)
  }

  /** Everywhere in the element, and in what its components return, sibling keys are distinct and
      siblings have tags. */
  ghost predicate Tidy(cfuncs: CFuncs, e: Elem, fuel: nat)
    decreases fuel, e
  {
    if e.tag == "" || e.tag == TEXT_TAG then true
    else if IsBaseTag(e.tag) then
      && DistinctKeys(e.children)
      && forall i :: 0 <= i < |e.children| ==> e.children[i].tag != "" && Tidy(cfuncs, e.children[i], fuel)
    else if e.tag !in cfuncs || fuel == 0 then true
    else
      var out := OutputElem(cfuncs[e.tag](e));
      out.Some? ==> Tidy(cfuncs, out.value, fuel - 1)
  }
}
