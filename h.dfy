/** The node builder `h` (src/package/h.ts): the dispatch on its optional
    second and third arguments, the replacement of primitive children by
    text vnodes in the caller's array, and the SVG namespace tagging of
    `addNS`. */
module Builder {
  import opened Wrappers
  import opened VNodes

  const SvgNamespace: string := "http://www.w3.org/2000/svg"

  /** An entry of a children array as callers write it: a vnode, a string
      or number, or null/undefined. */
  datatype Child = Node(v: VNode) | Primitive(p: Prim) | Nil

  /** An argument of `h` after `sel`. `Array` is a children array of the
      caller, with `ref` the identity it gets as a vnode's `children`. A
      `VNodeArg` is any object with the fields of a vnode, a `DataArg` any
      other object. */
  datatype Arg =
    | Undefined
    | Null
    | Array(a: array<Child>, ref: nat)
    | PrimArg(p: Prim)
    | VNodeArg(v: VNode)
    | DataArg(d: VNodeData)

  /** Where the children of the new vnode come from: nowhere, the caller's
      array, or a fresh one-element array around a vnode. */
  datatype KidsSource = NoKids | Given(a: array<Child>, ref: nat) | Wrapped(v: VNode)

  /** What the dispatch settles before the normalisation loop. `primData`
      says that `data` is a string or number, into which `addNS` cannot
      write. */
  datatype Parts = Parts(data: Option<VNodeData>, primData: bool, kids: KidsSource, text: Option<Prim>)

  /** `c && c.sel`: the object has a non-empty selector. */
  predicate HasSel(v: VNode)
  {
    v.sel.Some? && v.sel.value != ""
  }

  /** `data = b` for an argument that is not null: the fields the core
      reads from it. A vnode used as data contributes its `key`; an array
      or a primitive has none of the fields. */
  function AsData(b: Arg): (d: Option<VNodeData>)
    ensures d.None? <==> b.Undefined?
  {
    match b
    case Undefined => None
    case Null => Some(EmptyData)
    case Array(_, _) => Some(EmptyData)
    case PrimArg(_) => Some(EmptyData)
    case VNodeArg(v) => Some(VNodeData(v.key, None, None))
    case DataArg(d) => Some(d)
  }

  /** The overload dispatch of `h(sel, b, c)`. */
  function Dispatch(b: Arg, c: Arg): (r: Parts)
    ensures r.text.None? || r.kids.NoKids?
  {
    if !c.Undefined? then
      var data := if b.Null? then Some(EmptyData) else AsData(b);
      var prim := b.PrimArg?;
      match c
      case Array(a, ref) => Parts(data, prim, Given(a, ref), None)
      case PrimArg(p) => Parts(data, prim, NoKids, Some(p))
      case VNodeArg(v) => if HasSel(v) then Parts(data, prim, Wrapped(v), None) else Parts(data, prim, NoKids, None)
      case _ => Parts(data, prim, NoKids, None)
    else if !b.Undefined? && !b.Null? then
      match b
      case Array(a, ref) => Parts(Some(EmptyData), false, Given(a, ref), None)
      case PrimArg(p) => Parts(Some(EmptyData), false, NoKids, Some(p))
      case VNodeArg(v) =>
        if HasSel(v) then Parts(Some(EmptyData), false, Wrapped(v), None) else Parts(AsData(b), false, NoKids, None)
      case _ => Parts(AsData(b), false, NoKids, None)
    else Parts(Some(EmptyData), false, NoKids, None)
  }

  /** The three-argument form: `data` is `b` unless `b` is null, and it
      is a primitive exactly when `b` is; an array
      `c` becomes the children, a primitive `c` the text, and an object `c`
      with a non-empty `sel` the only child. Anything else in `c` is
      ignored. */
  lemma DispatchThree(b: Arg, c: Arg)
    requires !c.Undefined?
    ensures var r := Dispatch(b, c);
            && r.data == (if b.Null? then Some(EmptyData) else AsData(b)) && (r.primData <==> b.PrimArg?)
            && (r.kids.Given? <==> c.Array?) && (r.kids.Given? ==> r.kids.a == c.a && r.kids.ref == c.ref)
            && (r.text.Some? <==> c.PrimArg?) && (r.text.Some? ==> r.text.value == c.p)
            && (r.kids.Wrapped? <==> c.VNodeArg? && HasSel(c.v)) && (r.kids.Wrapped? ==> r.kids.v == c.v)
  {
  }

  /** The two-argument form: an array `b` becomes the children, a
      primitive the text, an object with a non-empty `sel` the only child,
      and any other object the data. A null or undefined `b` leaves the
      data empty, with neither children nor text. The data is never a
      primitive. */
  lemma DispatchTwo(b: Arg)
    ensures var r := Dispatch(b, Undefined);
            && !r.primData && (r.kids.Given? <==> b.Array?)
            && (r.text.Some? <==> b.PrimArg?) && (r.text.Some? ==> r.text.value == b.p)
            && (r.kids.Wrapped? <==> b.VNodeArg? && HasSel(b.v))
            && (b.DataArg? ==> r.data == Some(b.d))
            && (b.VNodeArg? && !HasSel(b.v) ==> r.data == Some(VNodeData(b.v.key, None, None)))
            && (b.Null? || b.Undefined? ==> r == Parts(Some(EmptyData), false, NoKids, None))
  {
  }

  /** The text vnode that replaces a primitive child:
      `vnode(undefined, undefined, undefined, p, undefined)`. */
  function TextVnode(p: Prim, id: VId): (v: VNode)
    ensures v.id == id && v.sel.None? && v.data.None? && v.children.None? && v.elm.None?
    ensures v.text == Some(p) && v.key.None?
  {
    Make(id, None, None, None, Some(p), None)
  }

  /** The entry after one turn of the normalisation loop; `id` is the
      identity of the text vnode it may make. */
  function Normal(c: Child, id: VId): (r: Child)
    ensures !r.Primitive?
  {
    if c.Primitive? then Node(TextVnode(c.p, id)) else c
  }

  /** The normalisation loop: each primitive entry of the caller's array
      is replaced in place by a text vnode holding it; the other entries
      and the length are kept. The text vnode of entry `i` gets the
      identity `base + i`. */
  method NormalizeChildren(a: array<Child>, base: VId)
    modifies a
    ensures forall i :: 0 <= i < a.Length ==> a[i] == Normal(old(a[i]), base + i)
    ensures forall i :: 0 <= i < a.Length && !old(a[i]).Primitive? ==> a[i] == old(a[i])
    ensures forall i :: 0 <= i < a.Length && old(a[i]).Primitive? ==>
              a[i].Node? && a[i].v == TextVnode(old(a[i]).p, base + i)
  {
    var i := 0;
    while i < a.Length
      invariant 0 <= i <= a.Length
      invariant forall k :: 0 <= k < i ==> a[k] == Normal(old(a[k]), base + k)
      invariant forall k :: i <= k < a.Length ==> a[k] == old(a[k])
    {
      if a[i].Primitive? {
        a[i] := Node(TextVnode(a[i].p, base + i));
      }
      i := i + 1;
    }
  }

  /** The caller's array after the loop, entry by entry. */
  function Normalized(items: seq<Child>, base: VId): (r: seq<Child>)
    ensures |r| == |items|
  {
    seq(|items|, i requires 0 <= i < |items| => Normal(items[i], base + i))
  }

  /** An array without primitives as children slots: null and undefined
      become empty slots. */
  function Slots(items: seq<Child>): (r: seq<Option<VNode>>)
    requires forall i :: 0 <= i < |items| ==> !items[i].Primitive?
    ensures |r| == |items|
  {
    seq(|items|, i requires 0 <= i < |items| => if items[i].Node? then Some(items[i].v) else None)
  }

  /** The `children` the new vnode gets from the array `items` after the
      loop, or from a wrapped vnode. `ref` is the identity of the array
      `[c]` or `[b]` would make. */
  function KidsAfter(k: KidsSource, items: seq<Child>, ref: nat, base: VId): (r: Option<Kids>)
    ensures r.None? <==> k.NoKids?
    ensures k.Given? ==> r.value.ref == k.ref && |r.value.items| == |items|
    ensures k.Wrapped? ==> r.value == Kids(ref, [Some(k.v)])
  {
    match k
    case NoKids => None
    case Wrapped(v) => Some(Kids(ref, [Some(v)]))
    case Given(_, aref) => Some(Kids(aref, Slots(Normalized(items, base))))
  }

  /** A normalised children slot: a vnode stays, a primitive becomes its
      text vnode, null or undefined stays empty. */
  lemma KidsAfterSlots(k: KidsSource, items: seq<Child>, ref: nat, base: VId, i: nat)
    requires k.Given? && i < |items|
    ensures var s := KidsAfter(k, items, ref, base).value.items[i];
            && (items[i].Node? ==> s == Some(items[i].v))
            && (items[i].Primitive? ==> s == Some(TextVnode(items[i].p, base + i)))
            && (items[i].Nil? ==> s.None?)
  {
  }

  /** The `svg` test: `sel` is `svg` or starts with `svg.` or `svg#`. */
  predicate IsSvg(sel: string)
  {
    |sel| >= 3 && sel[0] == 's' && sel[1] == 'v' && sel[2] == 'g' &&
    (|sel| == 3 || sel[3] == '.' || sel[3] == '#')
  }

  /** `svg` followed by a character is tagged exactly when that character
      is `.` or `#`: `svg.a` and `svg#a` are, `svgx` and `svga.b` are not. */
  lemma SvgPrefix(ch: char, rest: string)
    ensures IsSvg("svg")
    ensures IsSvg("svg" + [ch] + rest) <==> ch == '.' || ch == '#'
    ensures !IsSvg(rest) || (|rest| >= 3 && rest[..3] == "svg")
  {
    var sel := "svg" + [ch] + rest;
    assert sel[3] == ch;
    if IsSvg(rest) {
      assert rest[..3] == [rest[0], rest[1], rest[2]];
    }
  }

  /** `addNS` goes below a node when it has children and is not a
      `foreignObject`. */
  predicate Descends(v: VNode)
  {
    v.sel != Some("foreignObject") && v.children.Some?
  }

  /** `addNS(v.data, v.children, v.sel)`, on values: `ns` is set on the
      data, then on every child with defined data, recursively, unless
      `v` is a `foreignObject`. A null child makes `children[i].data`
      throw. */
  function Tag(v: VNode): (r: Result<VNode>)
    requires v.data.Some?
    decreases v, 1
  {
    var d := v.data.value.(ns := Some(SvgNamespace));
    if !Descends(v) then Ok(v.(data := Some(d)))
    else
      match TagChildren(v, 0)
      case Err(e) => Err(e)
      case Ok(items) => Ok(v.(data := Some(d), children := Some(Kids(v.children.value.ref, items))))
  }

  /** The loop of `addNS` from child `i` on. */
  function TagChildren(v: VNode, i: nat): (r: Result<seq<Option<VNode>>>)
    requires v.children.Some? && i <= |v.children.value.items|
    ensures r.Ok? ==> |r.value| == |v.children.value.items| - i
    decreases v, 0, |v.children.value.items| - i
  {
    var items := v.children.value.items;
    if i == |items| then Ok([])
    else if items[i].None? then Err(TypeError)
    else
      var c := items[i].value;
      var head := if c.data.None? then Ok(c) else Tag(c);
      match head
      case Err(e) => Err(e)
      case Ok(h) =>
        match TagChildren(v, i + 1)
        case Err(e) => Err(e)
        case Ok(rest) => Ok([Some(h)] + rest)
  }

  /** Every node `addNS` reaches carries the SVG namespace. */
  ghost predicate Tagged(v: VNode)
  {
    && v.data.Some? && v.data.value.ns == Some(SvgNamespace)
    && (Descends(v) ==>
          var items := v.children.value.items;
          forall i :: 0 <= i < |items| && items[i].Some? && items[i].value.data.Some? ==> Tagged(items[i].value))
  }

  /** `r` is `v` with only `ns` changed, and only on nodes `addNS` reaches:
      same identity, selector, key, text and element; same data otherwise;
      below a `foreignObject` or a child without data, nothing changes. */
  ghost predicate NsOnly(v: VNode, r: VNode)
  {
    && v.data.Some? && r.data.Some?
    && r == v.(data := r.data, children := r.children)
    && r.data.value == v.data.value.(ns := r.data.value.ns)
    && (if !Descends(v) then r.children == v.children
        else
          var items := v.children.value.items;
          && r.children.Some? && r.children.value.ref == v.children.value.ref
          && |r.children.value.items| == |items|
          && forall i :: 0 <= i < |items| ==>
               && (items[i].Some? <==> r.children.value.items[i].Some?)
               && (items[i].Some? && items[i].value.data.None? ==> r.children.value.items[i] == items[i])
               && (items[i].Some? && items[i].value.data.Some? ==> NsOnly(items[i].value, r.children.value.items[i].value)))
  }

  /** A children array `addNS` reaches holds a null entry. */
  ghost predicate NullReached(v: VNode)
  {
    Descends(v) &&
      var items := v.children.value.items;
      exists i :: 0 <= i < |items| && (items[i].None? || (items[i].value.data.Some? && NullReached(items[i].value)))
  }

  /** `addNS` tags every node it reaches and changes nothing else. */
  lemma {:induction false} TagSpec(v: VNode)
    requires v.data.Some? && Tag(v).Ok?
    ensures Tagged(Tag(v).value) && NsOnly(v, Tag(v).value)
    decreases v, 1
  {
    if Descends(v) {
      TagChildrenSpec(v, 0);
      var items := v.children.value.items;
      var tagged := Tag(v).value.children.value.items;
      assert tagged == TagChildren(v, 0).value;
      forall k | 0 <= k < |tagged| && tagged[k].Some? && tagged[k].value.data.Some?
        ensures Tagged(tagged[k].value)
      {
        assert tagged[k] == tagged[k - 0];
        assert items[k].Some?;
      }
    }
  }

  lemma {:induction false} TagChildrenSpec(v: VNode, i: nat)
    requires v.children.Some? && i <= |v.children.value.items| && TagChildren(v, i).Ok?
    ensures var items := v.children.value.items;
            var r := TagChildren(v, i).value;
            forall k :: i <= k < |items| ==>
              && (items[k].Some? <==> r[k - i].Some?)
              && (items[k].Some? && items[k].value.data.None? ==> r[k - i] == items[k])
              && (items[k].Some? && items[k].value.data.Some? ==>
                    Tagged(r[k - i].value) && NsOnly(items[k].value, r[k - i].value))
    decreases v, 0, |v.children.value.items| - i
  {
    var items := v.children.value.items;
    if i < |items| {
      var c := items[i].value;
      if c.data.Some? {
        TagSpec(c);
      }
      TagChildrenSpec(v, i + 1);
    }
  }

  /** `addNS` throws exactly when a children array it reaches holds a
      null entry. */
  lemma {:induction false} TagFails(v: VNode)
    requires v.data.Some?
    ensures Tag(v).Err? <==> NullReached(v)
    decreases v, 1
  {
    if Descends(v) {
      TagChildrenFails(v, 0);
    }
  }

  lemma {:induction false} TagChildrenFails(v: VNode, i: nat)
    requires v.children.Some? && i <= |v.children.value.items|
    ensures var items := v.children.value.items;
            TagChildren(v, i).Err? <==>
              exists k :: i <= k < |items| && (items[k].None? || (items[k].value.data.Some? && NullReached(items[k].value)))
    decreases v, 0, |v.children.value.items| - i
  {
    var items := v.children.value.items;
    if i < |items| {
      if items[i].Some? && items[i].value.data.Some? {
        TagFails(items[i].value);
      }
      TagChildrenFails(v, i + 1);
    }
  }

  /** The end of `h`: the svg test, `addNS` when it passes, and
      `vnode(sel, data, children, text, undefined)`. Tagging undefined data
      throws, and so does writing `ns` into a string or number in the
      source's strict-mode code. */
  function Build(sel: string, data: Option<VNodeData>, primData: bool, children: Option<Kids>, text: Option<Prim>, id: VId): Result<VNode>
  {
    var v := Make(id, Some(sel), data, children, text, None);
    if !IsSvg(sel) then Ok(v)
    else if data.None? || primData then Err(TypeError)
    else Tag(v)
  }

  /** The node `h` returns: the given selector, no element, `key` equal to
      `data.key`; text and children are never both defined when the
      dispatch set at most one of them; under an `svg` selector, every
      node `addNS` reaches is tagged and nothing else changed, and the
      call fails exactly when the data is undefined or a primitive or
      `addNS` meets a null child. Any other selector is left untagged. */
  lemma BuildSpec(sel: string, data: Option<VNodeData>, primData: bool, children: Option<Kids>, text: Option<Prim>, id: VId)
    ensures var v := Make(id, Some(sel), data, children, text, None);
            var r := Build(sel, data, primData, children, text, id);
            && (r.Err? <==> IsSvg(sel) && (data.None? || primData || NullReached(v)))
            && (r.Ok? ==> && r.value.id == id && r.value.sel == Some(sel) && r.value.elm.None?
                          && r.value.key == KeyOf(data) && r.value.text == text
                          && (r.value.data.Some? ==> r.value.key == r.value.data.value.key)
                          && (text.None? || children.None? ==> TextXorChildren(r.value)))
            && (r.Ok? && IsSvg(sel) ==> Tagged(r.value) && NsOnly(v, r.value))
            && (!IsSvg(sel) ==> r == Ok(v))
  {
    var v := Make(id, Some(sel), data, children, text, None);
    if IsSvg(sel) && data.Some? && !primData {
      TagFails(v);
      if Tag(v).Ok? {
        TagSpec(v);
      }
    }
  }

  /** The array `h` overwrites: the caller's children array, if it is used. */
  function Overwritten(p: Parts): set<array<Child>>
  {
    if p.kids.Given? then {p.kids.a} else {}
  }

  /** `h(sel, b, c)`. `id` is the identity of the returned vnode, `ref` that
      of an array `[b]` or `[c]`, `base + i` that of the text vnode made for
      entry `i` of the caller's array. */
  method H(sel: string, b: Arg, c: Arg, id: VId, ref: nat, base: VId) returns (r: Result<VNode>)
    modifies Overwritten(Dispatch(b, c))
    ensures var p := Dispatch(b, c);
            r == Build(sel, p.data, p.primData, KidsAfter(p.kids, if p.kids.Given? then old(p.kids.a[..]) else [], ref, base), p.text, id)
    ensures var p := Dispatch(b, c);
            p.kids.Given? ==> forall i :: 0 <= i < p.kids.a.Length ==> p.kids.a[i] == Normal(old(p.kids.a[i]), base + i)
    ensures r.Ok? ==> TextXorChildren(r.value) && r.value.key == KeyOf(Dispatch(b, c).data)
    ensures IsSvg(sel) && !c.Undefined? && b.PrimArg? ==> r == Err(TypeError)
  {
    var p := Dispatch(b, c);
    var children: Option<Kids> := None;
    match p.kids {
      case NoKids =>
      case Wrapped(v) =>
        children := Some(Kids(ref, [Some(v)]));
      case Given(a, aref) =>
        ghost var before := a[..];
        NormalizeChildren(a, base);
        assert a[..] == Normalized(before, base);
        children := Some(Kids(aref, Slots(a[..])));
    }
    r := Build(sel, p.data, p.primData, children, p.text, id);
    BuildSpec(sel, p.data, p.primData, children, p.text, id);
  }
}
