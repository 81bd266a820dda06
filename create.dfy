/** `createElm` (src/package/init.ts:90-155) as a function of the
    reconciler's state, and what it guarantees: the new host subtree
    mirrors the vnode tree, occupies only born host nodes, leaves the rest
    of the host alone, and the hook calls and insert queue come out in the
    documented order. */
module Creation {
  import opened Wrappers
  import opened VNodes
  import opened HostTree
  import opened Selectors
  import opened Hooks
  import opened Events
  import opened Trees
  import opened States

  /** The attributes `createElm` sets from a parsed selector: `id`, then `class`. */
  function SelectorAttrs(p: Parsed): map<string, string>
  {
    var withId := if p.id.Some? then map["id" := p.id.value] else map[];
    if p.className.Some? then withId["class" := p.className.value] else withId
  }

  /** `data.ns`, undefined without data. */
  function NsOf(v: VNode): Option<string>
  {
    if v.data.Some? then v.data.value.ns else None
  }

  /** `createElm(v)`: the new state and the host node of `v`. */
  function CreateElm(modules: seq<Module>, s: State, v: VNode): (r: (State, HostId))
    decreases v, 3, 0, 0
  {
    var s1 := s.(trace := s.trace + NodeEvents(v, InitHook));
    if v.sel == Some("!") then CreateComment(s1, v)
    else if v.sel.Some? then CreateElement(modules, s1, v)
    else CreateText(s1, v)
  }

  /** The comment branch of `createElm`: an undefined text becomes ''. */
  function CreateComment(s: State, v: VNode): (State, HostId)
  {
    var s2 := if TextOf(s.texts, v).None? then s.(texts := s.texts[v.id := PStr("")]) else s;
    var made := CreateNode(s2.host, Comment(CommentData(TextOf(s2.texts, v))));
    (s2.(host := made.0, elms := s2.elms[v.id := made.1]), made.1)
  }

  /** The text branch of `createElm`. */
  function CreateText(s: State, v: VNode): (State, HostId)
  {
    var made := CreateNode(s.host, Text(if TextOf(s.texts, v).Some? then PrimString(TextOf(s.texts, v).value) else "undefined"));
    (s.(host := made.0, elms := s.elms[v.id := made.1]), made.1)
  }

  /** The element branch of `createElm`, after the `init` hook. */
  function CreateElement(modules: seq<Module>, s: State, v: VNode): (r: (State, HostId))
    requires v.sel.Some?
    decreases v, 2, 0, 0
  {
    var o := OpenElement(modules, s, v);
    var s2 := CreateContent(modules, o.0, v, o.1);
    (s2.(trace := s2.trace + NodeEvents(v, CreateHook),
         queue := s2.queue + if HasHook(v, InsertHook) then [v] else []), o.1)
  }

  /** The element made for `v` with the selector's `id` and `class` set,
      `v.elm` written and the module `create` hooks called. */
  function OpenElement(modules: seq<Module>, s: State, v: VNode): (r: (State, HostId))
    requires v.sel.Some?
    ensures r.1 == s.host.next && r.0.host.next == s.host.next + 1
  {
    var p := Parse(v.sel.value);
    var made := HostTree.CreateElement(s.host, p.tag, NsOf(v));
    var e := made.1;
    var h1 := if p.id.Some? then SetAttribute(made.0, e, "id", p.id.value) else made.0;
    var h2 := if p.className.Some? then SetAttribute(h1, e, "class", p.className.value) else h1;
    (s.(host := h2, elms := s.elms[v.id := e],
        trace := s.trace + ModuleEvents(Defined(modules, Create), Create, v.id)), e)
  }

  /** The children of an element, or its text node. */
  function CreateContent(modules: seq<Module>, s: State, v: VNode, e: HostId): (r: State)
    decreases v, 1, 0, 0
  {
    if v.children.Some? then CreateChildren(modules, s, v, e, 0)
    else if TextOf(s.texts, v).Some? then
      var made := CreateNode(s.host, Text(PrimString(TextOf(s.texts, v).value)));
      s.(host := AppendChild(made.0, e, made.1))
    else s
  }

  /** The children loop from slot `i` on: each non-null child is made and
      appended to `e`. */
  function CreateChildren(modules: seq<Module>, s: State, v: VNode, e: HostId, i: nat): (r: State)
    requires v.children.Some?
    decreases v, 0, |v.children.value.items| - i
  {
    var items := v.children.value.items;
    if i >= |items| then s
    else if items[i].None? then CreateChildren(modules, s, v, e, i + 1)
    else CreateChildren(modules, CreateChild(modules, s, items[i].value, e), v, e, i + 1)
  }

  /** One round of the children loop: `appendChild(elm, createElm(ch))`. */
  function CreateChild(modules: seq<Module>, s: State, c: VNode, e: HostId): State
    decreases c, 4, 0, 0
  {
    var made := CreateElm(modules, s, c);
    made.0.(host := AppendChild(made.0.host, e, made.1))
  }

  /** `createElm` changes the host only at the nodes it makes, gives
      parents only to those, leaves the root it returns in no list, and
      writes `elm` and `text` only into vnodes of the tree it makes. */
  lemma {:induction false} CreateElmFrame(modules: seq<Module>, s: State, v: VNode)
    requires ParentsBelow(s.host)
    ensures var r := CreateElm(modules, s, v);
            var born := Between(s.host.next, r.0.host.next);
            && r.1 == s.host.next < r.0.host.next
            && Outside(s.host, r.0.host, born)
            && KeptOutside(s.host.parent, r.0.host.parent, born)
            && r.1 !in r.0.host.parent
            && KeptOutside(s.elms, r.0.elms, Ids(v)) && KeptOutside(s.texts, r.0.texts, Ids(v))
            && r.0.pending == s.pending
    decreases v, 3, 0, 0
  {
    if v.sel.Some? && v.sel != Some("!") {
      CreateElementFrame(modules, s.(trace := s.trace + NodeEvents(v, InitHook)), v);
    }
  }

  lemma {:induction false} CreateElementFrame(modules: seq<Module>, s: State, v: VNode)
    requires ParentsBelow(s.host) && v.sel.Some?
    ensures var r := CreateElement(modules, s, v);
            var born := Between(s.host.next, r.0.host.next);
            && r.1 == s.host.next < r.0.host.next
            && Outside(s.host, r.0.host, born)
            && KeptOutside(s.host.parent, r.0.host.parent, born)
            && r.1 !in r.0.host.parent
            && KeptOutside(s.elms, r.0.elms, Ids(v)) && KeptOutside(s.texts, r.0.texts, Ids(v))
            && r.0.pending == s.pending
    decreases v, 2, 0, 0
  {
    var o := OpenElement(modules, s, v);
    OpenElementFrame(modules, s, v);
    CreateContentFrame(modules, o.0, v, o.1);
    var s2 := CreateContent(modules, o.0, v, o.1);
    if v.children.Some? {
      assert IdsOf(v.children.value.items) <= Ids(v);
    }
    KeptOutsideTrans(s.elms, o.0.elms, s2.elms, {v.id}, ContentIds(v), Ids(v));
    KeptOutsideTrans(s.texts, o.0.texts, s2.texts, {}, ContentIds(v), Ids(v));
    OutsideGrow(s.host, o.0.host, s2.host, {o.1}, Between(o.0.host.next, s2.host.next) + {o.1}, Between(s.host.next, s2.host.next));
    KeptOutsideTrans(s.host.parent, o.0.host.parent, s2.host.parent, {}, Between(o.0.host.next, s2.host.next), Between(s.host.next, s2.host.next));
  }

  /** Opening the element changes the host only at the new node. */
  lemma OpenElementFrame(modules: seq<Module>, s: State, v: VNode)
    requires ParentsBelow(s.host) && v.sel.Some?
    ensures var o := OpenElement(modules, s, v);
            && Outside(s.host, o.0.host, {o.1}) && o.0.host.parent == s.host.parent
            && o.1 !in s.host.parent && ParentsBelow(o.0.host)
            && o.0.elms == s.elms[v.id := o.1] && o.0.texts == s.texts && o.0.pending == s.pending
  {
  }

  /** The vnodes whose fields the content of `v` may write. */
  function ContentIds(v: VNode): set<VId>
  {
    if v.children.Some? then IdsOf(v.children.value.items) else {}
  }

  lemma {:induction false} CreateContentFrame(modules: seq<Module>, s: State, v: VNode, e: HostId)
    requires ParentsBelow(s.host)
    ensures var r := CreateContent(modules, s, v, e);
            var born := Between(s.host.next, r.host.next);
            && s.host.next <= r.host.next
            && KeptOutside(s.host.kids, r.host.kids, born + {e})
            && KeptOutside(s.host.info, r.host.info, born)
            && KeptOutside(s.host.parent, r.host.parent, born)
            && KeptOutside(s.elms, r.elms, ContentIds(v)) && KeptOutside(s.texts, r.texts, ContentIds(v))
            && r.pending == s.pending
    decreases v, 1, 0, 0
  {
    if v.children.Some? {
      CreateChildrenFrame(modules, s, v, e, 0);
    } else if TextOf(s.texts, v).Some? {
      var made := CreateNode(s.host, Text(PrimString(TextOf(s.texts, v).value)));
      assert made.1 !in made.0.parent;
    }
  }

  lemma {:induction false} CreateChildrenFrame(modules: seq<Module>, s: State, v: VNode, e: HostId, i: nat)
    requires ParentsBelow(s.host) && v.children.Some?
    ensures var r := CreateChildren(modules, s, v, e, i);
            var born := Between(s.host.next, r.host.next);
            && s.host.next <= r.host.next
            && KeptOutside(s.host.kids, r.host.kids, born + {e})
            && KeptOutside(s.host.info, r.host.info, born)
            && KeptOutside(s.host.parent, r.host.parent, born)
            && KeptOutside(s.elms, r.elms, IdsOf(v.children.value.items))
            && KeptOutside(s.texts, r.texts, IdsOf(v.children.value.items))
            && r.pending == s.pending
    decreases v, 0, |v.children.value.items| - i, 2
  {
    CreateChildrenHostFrame(modules, s, v, e, i);
    CreateChildrenFieldFrame(modules, s, v, e, i);
  }

  lemma {:induction false} CreateChildrenHostFrame(modules: seq<Module>, s: State, v: VNode, e: HostId, i: nat)
    requires ParentsBelow(s.host) && v.children.Some?
    ensures var r := CreateChildren(modules, s, v, e, i);
            var born := Between(s.host.next, r.host.next);
            && s.host.next <= r.host.next
            && KeptOutside(s.host.kids, r.host.kids, born + {e})
            && KeptOutside(s.host.info, r.host.info, born)
            && KeptOutside(s.host.parent, r.host.parent, born)
    decreases v, 0, |v.children.value.items| - i, 1
  {
    var items := v.children.value.items;
    if i < |items| {
      if items[i].None? {
        CreateChildrenHostFrame(modules, s, v, e, i + 1);
      } else {
        var c := items[i].value;
        var m := CreateChild(modules, s, c, e);
        CreateChildFrame(modules, s, c, e);
        ParentsBelowKept(s.host, m.host);
        CreateChildrenHostFrame(modules, m, v, e, i + 1);
        var r := CreateChildren(modules, m, v, e, i + 1);
        KeptBetween(s.host.kids, m.host.kids, r.host.kids, s.host.next, m.host.next, r.host.next, {e});
        KeptBetween(s.host.info, m.host.info, r.host.info, s.host.next, m.host.next, r.host.next, {});
        KeptBetween(s.host.parent, m.host.parent, r.host.parent, s.host.next, m.host.next, r.host.next, {});
      }
    }
  }

  lemma {:induction false} CreateChildrenFieldFrame(modules: seq<Module>, s: State, v: VNode, e: HostId, i: nat)
    requires ParentsBelow(s.host) && v.children.Some?
    ensures var r := CreateChildren(modules, s, v, e, i);
            && KeptOutside(s.elms, r.elms, IdsOf(v.children.value.items))
            && KeptOutside(s.texts, r.texts, IdsOf(v.children.value.items))
            && r.pending == s.pending
    decreases v, 0, |v.children.value.items| - i, 1
  {
    var items := v.children.value.items;
    if i < |items| {
      if items[i].None? {
        CreateChildrenFieldFrame(modules, s, v, e, i + 1);
      } else {
        var c := items[i].value;
        var m := CreateChild(modules, s, c, e);
        CreateChildFrame(modules, s, c, e);
        ParentsBelowKept(s.host, m.host);
        CreateChildrenFieldFrame(modules, m, v, e, i + 1);
        var r := CreateChildren(modules, m, v, e, i + 1);
        assert Ids(c) <= IdsOf(items);
        KeptOutsideTrans(s.elms, m.elms, r.elms, Ids(c), IdsOf(items), IdsOf(items));
        KeptOutsideTrans(s.texts, m.texts, r.texts, Ids(c), IdsOf(items), IdsOf(items));
      }
    }
  }

  /** One round of the children loop: the child is made and appended to `e`. */
  lemma CreateChildFrame(modules: seq<Module>, s: State, c: VNode, e: HostId)
    requires ParentsBelow(s.host)
    decreases c, 4, 0, 0
    ensures var made := CreateElm(modules, s, c);
            var m := CreateChild(modules, s, c, e);
            var born := Between(s.host.next, m.host.next);
            && made.1 == s.host.next < m.host.next
            && KeptOutside(s.host.kids, m.host.kids, born + {e})
            && KeptOutside(s.host.info, m.host.info, born)
            && KeptOutside(s.host.parent, m.host.parent, born)
            && KeptOutside(s.elms, m.elms, Ids(c)) && KeptOutside(s.texts, m.texts, Ids(c))
            && m.pending == s.pending
  {
    var made := CreateElm(modules, s, c);
    CreateElmFrame(modules, s, c);
    assert ParentNode(made.0.host, made.1).None?;
  }

  /** The hook calls of `createElm` are the documented sequence
      `CreateEvents`: `init`, then for an element the module `create`
      hooks, the children's calls in order, and its own `create` hook. */
  lemma {:induction false} CreateElmTrace(modules: seq<Module>, s: State, v: VNode)
    ensures CreateElm(modules, s, v).0.trace == s.trace + CreateEvents(Defined(modules, Create), v)
    decreases v, 3, 0, 0
  {
    var s1 := s.(trace := s.trace + NodeEvents(v, InitHook));
    var creates := Defined(modules, Create);
    if IsElement(v) {
      var a := ModuleEvents(creates, Create, v.id);
      var b := if v.children.Some? then CreateEventsFrom(creates, v, 0) else [];
      var c := NodeEvents(v, CreateHook);
      assert CreateElm(modules, s, v) == CreateElement(modules, s1, v);
      CreateElementTrace(modules, s1, v);
      assert CreateEvents(creates, v) == NodeEvents(v, InitHook) + (a + b + c);
      Assoc5(s.trace, NodeEvents(v, InitHook), a, b, c);
    } else {
      assert CreateElm(modules, s, v).0.trace == s1.trace;
      assert CreateEvents(creates, v) == NodeEvents(v, InitHook) + [];
    }
  }

  lemma {:induction false} CreateElementTrace(modules: seq<Module>, s: State, v: VNode)
    requires v.sel.Some?
    ensures CreateElement(modules, s, v).0.trace
            == s.trace + ModuleEvents(Defined(modules, Create), Create, v.id)
               + (if v.children.Some? then CreateEventsFrom(Defined(modules, Create), v, 0) else [])
               + NodeEvents(v, CreateHook)
    decreases v, 2, 0, 0
  {
    var o := OpenElement(modules, s, v);
    CreateContentTrace(modules, o.0, v, o.1);
  }

  lemma {:induction false} CreateContentTrace(modules: seq<Module>, s: State, v: VNode, e: HostId)
    ensures CreateContent(modules, s, v, e).trace
            == s.trace + if v.children.Some? then CreateEventsFrom(Defined(modules, Create), v, 0) else []
    decreases v, 1, 0, 0
  {
    if v.children.Some? {
      CreateChildrenTrace(modules, s, v, e, 0);
    }
  }

  lemma {:induction false} CreateChildrenTrace(modules: seq<Module>, s: State, v: VNode, e: HostId, i: nat)
    requires v.children.Some?
    ensures CreateChildren(modules, s, v, e, i).trace == s.trace + CreateEventsFrom(Defined(modules, Create), v, i)
    decreases v, 0, |v.children.value.items| - i, 0
  {
    var items := v.children.value.items;
    if i < |items| {
      if items[i].None? {
        assert CreateChildren(modules, s, v, e, i) == CreateChildren(modules, s, v, e, i + 1);
        assert CreateEventsFrom(Defined(modules, Create), v, i) == [] + CreateEventsFrom(Defined(modules, Create), v, i + 1);
        CreateChildrenTrace(modules, s, v, e, i + 1);
      } else {
        var c := items[i].value;
        var creates := Defined(modules, Create);
        var m := CreateChild(modules, s, c, e);
        assert CreateChildren(modules, s, v, e, i) == CreateChildren(modules, m, v, e, i + 1);
        CreateElmTrace(modules, s, c);
        CreateChildrenTrace(modules, m, v, e, i + 1);
        assert CreateEventsFrom(creates, v, i) == CreateEvents(creates, c) + CreateEventsFrom(creates, v, i + 1);
        Assoc(s.trace, CreateEvents(creates, c), CreateEventsFrom(creates, v, i + 1));
      }
    } else {
      assert CreateChildren(modules, s, v, e, i) == s && CreateEventsFrom(Defined(modules, Create), v, i) == [];
      assert s.trace + [] == s.trace;
    }
  }

  /** The vnodes `createElm` pushes on the insert queue are `InsertQueue(v)`:
      every element of the tree with an `insert` hook, children before
      their parent. */
  lemma {:induction false} CreateElmQueue(modules: seq<Module>, s: State, v: VNode)
    ensures CreateElm(modules, s, v).0.queue == s.queue + InsertQueue(v)
    decreases v, 3, 0, 0
  {
    if IsElement(v) {
      CreateElementQueue(modules, s.(trace := s.trace + NodeEvents(v, InitHook)), v);
    }
  }

  lemma {:induction false} CreateElementQueue(modules: seq<Module>, s: State, v: VNode)
    requires v.sel.Some?
    ensures CreateElement(modules, s, v).0.queue
            == s.queue + (if v.children.Some? then InsertQueueFrom(v, 0) else [])
               + if HasHook(v, InsertHook) then [v] else []
    decreases v, 2, 0, 0
  {
    var o := OpenElement(modules, s, v);
    CreateContentQueue(modules, o.0, v, o.1);
  }

  lemma {:induction false} CreateContentQueue(modules: seq<Module>, s: State, v: VNode, e: HostId)
    ensures CreateContent(modules, s, v, e).queue
            == s.queue + if v.children.Some? then InsertQueueFrom(v, 0) else []
    decreases v, 1, 0, 0
  {
    if v.children.Some? {
      CreateChildrenQueue(modules, s, v, e, 0);
    }
  }

  lemma {:induction false} CreateChildrenQueue(modules: seq<Module>, s: State, v: VNode, e: HostId, i: nat)
    requires v.children.Some?
    ensures CreateChildren(modules, s, v, e, i).queue == s.queue + InsertQueueFrom(v, i)
    decreases v, 0, |v.children.value.items| - i, 0
  {
    var items := v.children.value.items;
    if i < |items| {
      if items[i].None? {
        assert CreateChildren(modules, s, v, e, i) == CreateChildren(modules, s, v, e, i + 1);
        assert InsertQueueFrom(v, i) == [] + InsertQueueFrom(v, i + 1);
        CreateChildrenQueue(modules, s, v, e, i + 1);
      } else {
        var c := items[i].value;
        var m := CreateChild(modules, s, c, e);
        assert CreateChildren(modules, s, v, e, i) == CreateChildren(modules, m, v, e, i + 1);
        CreateElmQueue(modules, s, c);
        CreateChildrenQueue(modules, m, v, e, i + 1);
        assert InsertQueueFrom(v, i) == InsertQueue(c) + InsertQueueFrom(v, i + 1);
        Assoc(s.queue, InsertQueue(c), InsertQueueFrom(v, i + 1));
      }
    } else {
      assert CreateChildren(modules, s, v, e, i) == s && InsertQueueFrom(v, i) == [];
      assert s.queue + [] == s.queue;
    }
  }

  /** The opened element is a consistent, childless element with the tag,
      namespace and selector attributes of `v`. */
  lemma OpenElementValid(modules: seq<Module>, s: State, v: VNode)
    requires Valid(s.host) && v.sel.Some?
    ensures var o := OpenElement(modules, s, v);
            var p := Parse(v.sel.value);
            && Valid(o.0.host) && o.1 in o.0.host.kids && o.0.host.kids[o.1] == []
            && o.0.host.info[o.1] == HostTree.Element(p.tag, NsOf(v), SelectorAttrs(p))
  {
    var p := Parse(v.sel.value);
    var made := HostTree.CreateElement(s.host, p.tag, NsOf(v));
    var e := made.1;
    CreateNodeSpec(s.host, HostTree.Element(p.tag, NsOf(v), map[]));
    var h1 := if p.id.Some? then SetAttribute(made.0, e, "id", p.id.value) else made.0;
    if p.id.Some? {
      SetAttributeSpec(made.0, e, "id", p.id.value);
    }
    if p.className.Some? {
      SetAttributeSpec(h1, e, "class", p.className.value);
    }
  }

  /** `createElm` keeps the host consistent, and the node it returns
      exists. */
  lemma {:induction false} CreateElmValid(modules: seq<Module>, s: State, v: VNode)
    requires Valid(s.host)
    ensures var r := CreateElm(modules, s, v);
            Valid(r.0.host) && r.1 in r.0.host.kids
    decreases v, 3, 0, 0
  {
    var s1 := s.(trace := s.trace + NodeEvents(v, InitHook));
    if v.sel == Some("!") {
      var s2 := if TextOf(s1.texts, v).None? then s1.(texts := s1.texts[v.id := PStr("")]) else s1;
      CreateNodeSpec(s.host, Comment(CommentData(TextOf(s2.texts, v))));
    } else if v.sel.Some? {
      CreateElementValid(modules, s1, v);
    } else {
      CreateNodeSpec(s.host, Text(if TextOf(s1.texts, v).Some? then PrimString(TextOf(s1.texts, v).value) else "undefined"));
    }
  }

  lemma {:induction false} CreateElementValid(modules: seq<Module>, s: State, v: VNode)
    requires Valid(s.host) && v.sel.Some?
    ensures var r := CreateElement(modules, s, v);
            Valid(r.0.host) && r.1 in r.0.host.kids
    decreases v, 2, 0, 0
  {
    var o := OpenElement(modules, s, v);
    OpenElementValid(modules, s, v);
    CreateContentValid(modules, o.0, v, o.1);
  }

  lemma {:induction false} CreateContentValid(modules: seq<Module>, s: State, v: VNode, e: HostId)
    requires Valid(s.host) && e in s.host.kids
    ensures var r := CreateContent(modules, s, v, e);
            Valid(r.host) && e in r.host.kids
    decreases v, 1, 0, 0
  {
    if v.children.Some? {
      CreateChildrenValid(modules, s, v, e, 0);
    } else if TextOf(s.texts, v).Some? {
      var node := Text(PrimString(TextOf(s.texts, v).value));
      var made := CreateNode(s.host, node);
      CreateNodeSpec(s.host, node);
      AppendUnlisted(made.0, e, made.1);
    }
  }

  lemma {:induction false} CreateChildrenValid(modules: seq<Module>, s: State, v: VNode, e: HostId, i: nat)
    requires Valid(s.host) && e in s.host.kids && v.children.Some?
    ensures var r := CreateChildren(modules, s, v, e, i);
            Valid(r.host) && e in r.host.kids
    decreases v, 0, |v.children.value.items| - i, 0
  {
    var items := v.children.value.items;
    if i < |items| {
      if items[i].None? {
        CreateChildrenValid(modules, s, v, e, i + 1);
      } else {
        CreateChildValid(modules, s, items[i].value, e);
        CreateChildrenValid(modules, CreateChild(modules, s, items[i].value, e), v, e, i + 1);
      }
    }
  }

  lemma CreateChildValid(modules: seq<Module>, s: State, c: VNode, e: HostId)
    requires Valid(s.host) && e in s.host.kids
    ensures var m := CreateChild(modules, s, c, e);
            Valid(m.host) && e in m.host.kids
    decreases c, 4, 0, 0
  {
    var made := CreateElm(modules, s, c);
    CreateElmValid(modules, s, c);
    ValidParentsBelow(s.host);
    CreateElmFrame(modules, s, c);
    assert e !in Between(s.host.next, made.0.host.next);
    AppendUnlisted(made.0.host, e, made.1);
  }
}
