/** The `patch` function returned by `init` (src/package/init.ts:74-78,
    377-413): the module `pre` hooks, the old root as a vnode, patching
    in place or replacing the root, then the queued `insert` hooks and
    the module `post` hooks. */
module Patching {
  import opened Wrappers
  import opened VNodes
  import opened HostTree
  import opened Hooks
  import opened Events
  import opened Trees
  import opened States
  import opened KeyMaps
  import opened Selectors
  import opened Creation
  import opened Removal
  import opened Diff
  import opened DiffFrame

  /** The first argument of `patch`: a vnode of an earlier patch, or a
      host node to start from. */
  datatype Target = OldVnode(v: VNode) | DomNode(elm: HostId)

  /** `isVnode`: the object has a defined `sel`. A host node has none. */
  predicate IsVnode(t: Target)
  {
    t.OldVnode? && t.v.sel.Some?
  }

  /** `emptyNodeAt(elm)`: a vnode for an existing element, with empty data,
      an empty children array and `elm` set; its selector is the one
      `ElementSelector` builds. `id` and `ref` are the identities of the
      new vnode object and of its children array. */
  function EmptyNodeAt(h: Host, elm: HostId, id: VId, ref: nat): (v: VNode)
    requires elm in h.info && h.info[elm].Element?
    ensures v.id == id && v.elm == Some(elm) && v.key.None? && v.text.None?
    ensures v.data == Some(EmptyData) && v.children == Some(Kids(ref, []))
  {
    var sel := ElementSelector(h.info[elm].tag, AttrOr(h, elm, "id"), AttrOr(h, elm, "class"));
    Make(id, Some(sel), Some(EmptyData), Some(Kids(ref, [])), None, Some(elm))
  }

  /** The selector of `emptyNodeAt(elm)` parses back into the element's
      lowercased tag, its id and its className. */
  lemma EmptyNodeAtSelector(h: Host, elm: HostId, id: VId, ref: nat)
    requires elm in h.info && h.info[elm].Element? && h.info[elm].tag != []
    requires Plain(h.info[elm].tag) && Plain(AttrOr(h, elm, "id")) && Plain(AttrOr(h, elm, "class"))
    ensures var v := EmptyNodeAt(h, elm, id, ref);
            var idAttr, classAttr := AttrOr(h, elm, "id"), AttrOr(h, elm, "class");
            v.sel.Some? && Parse(v.sel.value) == Parsed(Lower(h.info[elm].tag),
                                                        if idAttr != "" then Some(idAttr) else None,
                                                        if classAttr != "" then Some(classAttr) else None)
  {
    ElementSelectorRoundTrip(h.info[elm].tag, AttrOr(h, elm, "id"), AttrOr(h, elm, "class"));
  }

  /** `id` and `ref` are the identities of the objects `emptyNodeAt`
      makes anew (the `{}` data, the vnode and its `[]` children array):
      no field of a vnode `id` has been written yet, and neither belongs
      to the new tree `v`. */
  predicate Fresh(s: State, v: VNode, id: VId, ref: nat)
  {
    id !in s.elms && id !in s.texts && id !in Ids(v) && ref !in Refs(v)
  }

  /** With fresh identities, the `emptyNodeAt` vnode's `elm` is the host
      element it was made for, and it shares no vnode and no children
      array with the new tree. */
  lemma OldRootFresh(s: State, t: Target, v: VNode, id: VId, ref: nat)
    requires Fresh(s, v, id, ref)
    ensures var r := OldRoot(s.host, t, id, ref);
            r.Ok? && !IsVnode(t) ==>
              && ElmOf(s, r.value) == Some(t.elm)
              && Ids(r.value) !! Ids(v) && Refs(r.value) !! Refs(v)
  {
    var r := OldRoot(s.host, t, id, ref);
    if r.Ok? && !IsVnode(t) {
      var u := r.value;
      assert u.children.value.items == [];
      assert Ids(u) == {id};
      assert Refs(u) == {ref};
    }
  }

  /** The old root as a vnode. A target without `sel` goes to
      `emptyNodeAt`, which throws unless it is a host element (a vnode or
      a text node has no `tagName` to lowercase). */
  function OldRoot(h: Host, t: Target, id: VId, ref: nat): (r: Result<VNode>)
    ensures IsVnode(t) ==> r == Ok(t.v)
    ensures r.Ok? && !IsVnode(t) ==> t.DomNode? && r.value.elm == Some(t.elm) && r.value.children == Some(Kids(ref, []))
    ensures !IsVnode(t) ==> (r.Err? <==> !t.DomNode? || t.elm !in h.info || !h.info[t.elm].Element?)
  {
    if IsVnode(t) then Ok(t.v)
    else if t.DomNode? && t.elm in h.info && h.info[t.elm].Element? then Ok(EmptyNodeAt(h, t.elm, id, ref))
    else Err(TypeError)
  }

  /** The `else` branch of `patch`: the new tree is created and, when the
      old root has a parent, put after the old root, which is then removed.
      An undefined `oldVnode.elm` makes `parentNode` throw. */
  function Replace(modules: seq<Module>, s: State, oldV: VNode, v: VNode): Result<State>
  {
    var elm := ElmOf(s, oldV);
    if elm.None? then Err(TypeError)
    else
      var parent := ParentNode(s.host, elm.value);
      var made := CreateElm(modules, s, v);
      if parent.None? then Ok(made.0)
      else
        var h := InsertBefore(made.0.host, parent.value, made.1, NextSibling(made.0.host, elm.value));
        Ok(RemoveVnodes(modules, made.0.(host := h), parent.value, [Some(oldV)], 0, 0))
  }

  /** The calls of the `insert` hooks of the queued vnodes, in queue order. */
  function InsertCalls(q: seq<VNode>): (r: seq<Event>)
    ensures |r| == |q|
    ensures forall i :: 0 <= i < |q| ==> r[i] == NodeCall(InsertHook, q[i].id)
  {
    seq(|q|, i requires 0 <= i < |q| => NodeCall(InsertHook, q[i].id))
  }

  /** `patch(oldVnode, vnode)`. `id` and `ref` name the objects
      `emptyNodeAt` would make, which are new. */
  function Patch(modules: seq<Module>, s: State, target: Target, v: VNode, id: VId, ref: nat): Result<State>
    requires Fresh(s, v, id, ref)
  {
    var s1 := s.(trace := s.trace + GlobalEvents(Defined(modules, Pre), Pre), queue := []);
    match OldRoot(s1.host, target, id, ref)
    case Err(e) => Err(e)
    case Ok(oldV) =>
      match PatchRoot(modules, s1, oldV, v)
      case Err(e) => Err(e)
      case Ok(s2) => Ok(s2.(trace := s2.trace + InsertCalls(s2.queue) + GlobalEvents(Defined(modules, Post), Post)))
  }

  /** Between the `pre` and the `post` hooks: patching in place when the
      roots are the same vnode, replacing the root otherwise. */
  function PatchRoot(modules: seq<Module>, s: State, oldV: VNode, v: VNode): Result<State>
  {
    if SameVnode(oldV, v) then Ok(PatchVnode(modules, false, s, oldV, v)) else Replace(modules, s, oldV, v)
  }

  /** The hook order of `patch`: the module `pre` hooks come first; the
      `insert` hooks of the queue filled during this patch, once each and
      in queue order, then the module `post` hooks, come last. */
  lemma PatchHooks(modules: seq<Module>, s: State, target: Target, v: VNode, id: VId, ref: nat)
    requires Valid(s.host) && Fresh(s, v, id, ref)
    ensures var r := Patch(modules, s, target, v, id, ref);
            r.Ok? ==>
              var first := s.trace + GlobalEvents(Defined(modules, Pre), Pre);
              var last := InsertCalls(r.value.queue) + GlobalEvents(Defined(modules, Post), Post);
              && first <= r.value.trace
              && |first| + |last| <= |r.value.trace|
              && r.value.trace[|r.value.trace| - |last|..] == last
  {
    var s1 := s.(trace := s.trace + GlobalEvents(Defined(modules, Pre), Pre), queue := []);
    var root := OldRoot(s1.host, target, id, ref);
    if root.Ok? && PatchRoot(modules, s1, root.value, v).Ok? {
      PatchRootGrows(modules, s1, root.value, v);
      var s2 := PatchRoot(modules, s1, root.value, v).value;
      var last := InsertCalls(s2.queue) + GlobalEvents(Defined(modules, Post), Post);
      Assoc(s2.trace, InsertCalls(s2.queue), GlobalEvents(Defined(modules, Post), Post));
      assert (s2.trace + last)[|s2.trace|..] == last;
    }
  }

  /** Patching or replacing the root only appends to the trace. */
  lemma PatchRootGrows(modules: seq<Module>, s: State, oldV: VNode, v: VNode)
    requires Valid(s.host) && PatchRoot(modules, s, oldV, v).Ok?
    ensures s.trace <= PatchRoot(modules, s, oldV, v).value.trace
  {
    if SameVnode(oldV, v) {
      PatchVnodeKeeps(modules, false, s, oldV, v);
    } else {
      ReplaceGrows(modules, s, oldV, v);
    }
  }

  lemma ReplaceGrows(modules: seq<Module>, s: State, oldV: VNode, v: VNode)
    requires Replace(modules, s, oldV, v).Ok?
    ensures s.trace <= Replace(modules, s, oldV, v).value.trace
  {
    var elm := ElmOf(s, oldV);
    var made := CreateElm(modules, s, v);
    CreateElmTrace(modules, s, v);
    var parent := ParentNode(s.host, elm.value);
    if parent.Some? {
      var h := InsertBefore(made.0.host, parent.value, made.1, NextSibling(made.0.host, elm.value));
      RemoveVnodesTrace(modules, made.0.(host := h), parent.value, [Some(oldV)], 0, 0);
    }
  }

  /** Replacing the root: the new tree is created, its node takes the old
      root's place in the parent's list, and, with remove hooks that call
      `rm` at once, the old root's node leaves it. The insert queue is the
      new tree's `insert` vnodes, children first. */
  lemma ReplaceInPlace(modules: seq<Module>, s: State, oldV: VNode, v: VNode,
                       p: HostId, before: seq<HostId>, after: seq<HostId>)
    requires Valid(s.host) && AllModulesSync(modules) && !RemovesLater(oldV)
    requires ElmOf(s, oldV).Some? && p in s.host.kids && s.host.kids[p] == before + [ElmOf(s, oldV).value] + after
    requires oldV.id !in Ids(v)
    ensures var r := Replace(modules, s, oldV, v);
            var made := CreateElm(modules, s, v).1;
            && r.Ok? && Valid(r.value.host) && p in r.value.host.kids
            && r.value.host.kids[p] == before + [made] + after
            && r.value.queue == s.queue + InsertQueue(v)
  {
    var x := ElmOf(s, oldV).value;
    ParentOfListed(s.host, p, x);
    var made := CreateElm(modules, s, v);
    var s2 := made.0.(host := InsertBefore(made.0.host, p, made.1, NextSibling(made.0.host, x)));
    InsertedBeside(modules, s, oldV, v, p, before, after);
    RemoveOneSync(modules, s2, p, oldV, before, [made.1] + after);
    ReplaceUnfold(modules, s, oldV, v, p);
    Assoc(before, [made.1], after);
  }

  /** The new root, put before the old root's next sibling, comes right
      after the old root. */
  lemma InsertedBeside(modules: seq<Module>, s: State, oldV: VNode, v: VNode,
                       p: HostId, before: seq<HostId>, after: seq<HostId>)
    requires Valid(s.host)
    requires ElmOf(s, oldV).Some? && p in s.host.kids && s.host.kids[p] == before + [ElmOf(s, oldV).value] + after
    requires oldV.id !in Ids(v)
    ensures var x := ElmOf(s, oldV).value;
            var made := CreateElm(modules, s, v);
            var s2 := made.0.(host := InsertBefore(made.0.host, p, made.1, NextSibling(made.0.host, x)));
            && Valid(s2.host) && p in s2.host.kids && ElmOf(s2, oldV) == Some(x)
            && s2.host.kids[p] == before + [x] + ([made.1] + after)
            && s2.queue == s.queue + InsertQueue(v)
  {
    var x := ElmOf(s, oldV).value;
    var made := CreateElm(modules, s, v);
    CreatedBeside(modules, s, oldV, v, p, before, after);
    var h0 := made.0.host;
    NextSiblingSplit(h0, p, before, x, after);
    InsertAfter(h0, p, before, x, after, made.1);
    Assoc(before + [x], [made.1], after);
  }

  /** `patch`'s `else` branch when the old root's parent is `p`. */
  lemma ReplaceUnfold(modules: seq<Module>, s: State, oldV: VNode, v: VNode, p: HostId)
    requires ElmOf(s, oldV).Some? && ParentNode(s.host, ElmOf(s, oldV).value) == Some(p)
    ensures var made := CreateElm(modules, s, v);
            var h := InsertBefore(made.0.host, p, made.1, NextSibling(made.0.host, ElmOf(s, oldV).value));
            Replace(modules, s, oldV, v) == Ok(RemoveOne(modules, made.0.(host := h), p, oldV))
  {
    var made := CreateElm(modules, s, v);
    var h := InsertBefore(made.0.host, p, made.1, NextSibling(made.0.host, ElmOf(s, oldV).value));
    RemoveSlotUnfold(modules, made.0.(host := h), p, oldV);
  }

  /** `removeVnodes(parent, [oldVnode], 0, 0)` removes that one vnode. */
  lemma RemoveSlotUnfold(modules: seq<Module>, s: State, p: HostId, c: VNode)
    ensures RemoveVnodes(modules, s, p, [Some(c)], 0, 0) == RemoveOne(modules, s, p, c)
  {
    assert SlotAt([Some(c)], 0) == Some(c);
    var s1 := RemoveOne(modules, s, p, c);
    assert RemoveVnodes(modules, s1, p, [Some(c)], 1, 0) == s1;
  }

  /** After the new tree is created, the old root is still in `p`'s list
      between `before` and `after`, and the new root is in no list. */
  lemma CreatedBeside(modules: seq<Module>, s: State, oldV: VNode, v: VNode,
                      p: HostId, before: seq<HostId>, after: seq<HostId>)
    requires Valid(s.host)
    requires ElmOf(s, oldV).Some? && p in s.host.kids && s.host.kids[p] == before + [ElmOf(s, oldV).value] + after
    requires oldV.id !in Ids(v)
    ensures var made := CreateElm(modules, s, v);
            && Valid(made.0.host) && p in made.0.host.kids
            && made.0.host.kids[p] == before + [ElmOf(s, oldV).value] + after
            && made.1 in made.0.host.info && ParentNode(made.0.host, made.1).None?
            && ElmOf(made.0, oldV) == ElmOf(s, oldV)
            && made.0.queue == s.queue + InsertQueue(v)
  {
    var x := ElmOf(s, oldV).value;
    ParentOfListed(s.host, p, x);
    ValidParentsBelow(s.host);
    CreateElmFrame(modules, s, v);
    CreateElmValid(modules, s, v);
    CreateElmQueue(modules, s, v);
  }

  /** Inserting a node that is in no list puts it before `ref` in `p`'s
      list, or at its end. */
  lemma InsertUnlisted(h: Host, p: HostId, n: HostId, ref: Option<HostId>)
    requires Valid(h) && CanInsert(h, p, n, ref) && ParentNode(h, n).None? && ref != Some(n)
    ensures var r := InsertBefore(h, p, n, ref);
            Valid(r) && r.info == h.info && r.kids[p] == InsertAt(h.kids[p], n, ref)
  {
    InsertBeforeSpec(h, p, n, ref);
    Unlisted(h, n);
    WithoutAbsent(h.kids[p], n);
  }

  /** Inserting a node that is in no list before the next sibling of `x`,
      or at the end when `x` is last, puts it right after `x`. */
  lemma InsertAfter(h: Host, p: HostId, before: seq<HostId>, x: HostId, after: seq<HostId>, n: HostId)
    requires Valid(h) && p in h.kids && h.kids[p] == before + [x] + after
    requires n in h.info && ParentNode(h, n).None?
    ensures var r := InsertBefore(h, p, n, if after == [] then None else Some(after[0]));
            Valid(r) && r.info == h.info && r.kids[p] == before + [x] + [n] + after
  {
    var ref := if after == [] then None else Some(after[0]);
    Unlisted(h, n);
    assert n !in h.kids[p];
    assert ref.Some? ==> ref.value in h.kids[p];
    InsertUnlisted(h, p, n, ref);
    InsertAtAfter(before, x, after, n);
  }

  lemma InsertAtAfter(before: seq<HostId>, x: HostId, after: seq<HostId>, n: HostId)
    requires NoDup(before + [x] + after)
    ensures InsertAt(before + [x] + after, n, if after == [] then None else Some(after[0])) == before + [x] + [n] + after
  {
    var l := before + [x] + after;
    if after != [] {
      assert l == (before + [x]) + [after[0]] + after[1..];
      NoDupSplit(l, before + [x], after[0], after[1..]);
      InsertAtSplit(before + [x], after[0], after[1..], n);
      assert after == [after[0]] + after[1..];
    }
  }

  /** Without a parent of the old root, only the new tree's nodes change. */
  lemma ReplaceDetached(modules: seq<Module>, s: State, oldV: VNode, v: VNode)
    requires Valid(s.host) && ElmOf(s, oldV).Some? && ParentNode(s.host, ElmOf(s, oldV).value).None?
    ensures var r := Replace(modules, s, oldV, v);
            r.Ok? && Outside(s.host, r.value.host, Between(s.host.next, r.value.host.next))
  {
    ValidParentsBelow(s.host);
    CreateElmFrame(modules, s, v);
  }
}
