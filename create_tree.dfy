/** What `createElm` (src/package/init.ts:90-155) builds: a host subtree
    that mirrors the vnode tree and occupies only host nodes created by
    that call. */
module CreatedTree {
  import opened Wrappers
  import opened VNodes
  import opened HostTree
  import opened Hooks
  import opened Events
  import opened Trees
  import opened States
  import opened Creation

  /** The children in slots below `n` are mirrored, and their footprints
      lie among the host nodes `lo` up to `hi`. */
  ghost predicate MirroredUpTo(h: Host, elms: map<VId, HostId>, texts: map<VId, Prim>, v: VNode, n: nat, lo: nat, hi: nat)
    requires v.children.Some?
  {
    var items := v.children.value.items;
    forall j :: 0 <= j < n && j < |items| && items[j].Some? ==>
      Mirrors(h, elms, texts, items[j].value, []) && Foot(h, elms, items[j].value) <= Between(lo, hi)
  }

  /** The host subtree `createElm` returns mirrors `v`, `v.elm` is that
      node, and the subtree occupies only nodes made by the call. */
  lemma {:induction false} CreateElmMirrors(modules: seq<Module>, s: State, v: VNode)
    requires Valid(s.host) && WellFormed(v) && DistinctIds(v)
    ensures var r := CreateElm(modules, s, v);
            && v.id in r.0.elms && r.0.elms[v.id] == r.1
            && Mirrors(r.0.host, r.0.elms, r.0.texts, v, [])
            && Foot(r.0.host, r.0.elms, v) <= Between(s.host.next, r.0.host.next)
    decreases v, 3, 0, 0
  {
    var s1 := s.(trace := s.trace + NodeEvents(v, InitHook));
    if v.sel == Some("!") {
      var s2 := if TextOf(s1.texts, v).None? then s1.(texts := s1.texts[v.id := PStr("")]) else s1;
      assert CreateElm(modules, s, v) == CreateComment(s1, v);
      var r := CreateComment(s1, v);
      assert r.0.host.kids[r.1] == [];
      assert Foot(r.0.host, r.0.elms, v) == {r.1};
    } else if v.sel.Some? {
      assert CreateElm(modules, s, v) == Creation.CreateElement(modules, s1, v);
      CreateElementMirrors(modules, s1, v);
    } else {
      assert CreateElm(modules, s, v) == CreateText(s1, v);
      var r := CreateText(s1, v);
      assert r.0.host.kids[r.1] == [];
      assert Foot(r.0.host, r.0.elms, v) == {r.1};
    }
  }

  lemma {:induction false} CreateElementMirrors(modules: seq<Module>, s: State, v: VNode)
    requires Valid(s.host) && IsElement(v) && WellFormed(v) && DistinctIds(v)
    ensures var r := Creation.CreateElement(modules, s, v);
            && v.id in r.0.elms && r.0.elms[v.id] == r.1
            && Mirrors(r.0.host, r.0.elms, r.0.texts, v, [])
            && Foot(r.0.host, r.0.elms, v) <= Between(s.host.next, r.0.host.next)
    decreases v, 2, 0, 0
  {
    var o := OpenElement(modules, s, v);
    OpenElementValid(modules, s, v);
    OpenElementFrame(modules, s, v);
    CreateContentMirrors(modules, o.0, v, o.1);
  }

  /** After the content of the element `e` of `v` is made, `v` is mirrored. */
  lemma {:induction false} CreateContentMirrors(modules: seq<Module>, s: State, v: VNode, e: HostId)
    requires Valid(s.host) && IsElement(v) && WellFormed(v) && DistinctIds(v)
    requires e + 1 == s.host.next && e in s.host.info && s.host.info[e].Element? && s.host.kids[e] == []
    requires v.id in s.elms && s.elms[v.id] == e
    ensures var r := CreateContent(modules, s, v, e);
            && v.id in r.elms && r.elms[v.id] == e
            && Mirrors(r.host, r.elms, r.texts, v, [])
            && Foot(r.host, r.elms, v) <= Between(e, r.host.next)
    decreases v, 1, 0, 0
  {
    var r := CreateContent(modules, s, v, e);
    ValidParentsBelow(s.host);
    CreateContentFrame(modules, s, v, e);
    assert e !in Between(s.host.next, r.host.next);
    if v.children.Some? {
      forall j | 0 <= j < |v.children.value.items| && v.children.value.items[j].Some?
        ensures v.id !in Ids(v.children.value.items[j].value)
      {
      }
      assert v.id !in ContentIds(v);
      CreateChildrenMirrors(modules, s, v, e, 0);
      ElementMirrored(r.host, r.elms, r.texts, v, e, r.host.next);
    } else if TextOf(s.texts, v).Some? {
      ContentTextMirrors(s, v, e);
    } else {
      assert Foot(r.host, r.elms, v) == {e};
    }
  }

  /** The text child of a text-only element. */
  lemma ContentTextMirrors(s: State, v: VNode, e: HostId)
    requires Valid(s.host) && IsElement(v) && v.children.None? && TextOf(s.texts, v).Some?
    requires e + 1 == s.host.next && e in s.host.info && s.host.info[e].Element? && s.host.kids[e] == []
    requires v.id in s.elms && s.elms[v.id] == e
    ensures var node := Text(PrimString(TextOf(s.texts, v).value));
            var made := CreateNode(s.host, node);
            var h := AppendChild(made.0, e, made.1);
            && Mirrors(h, s.elms, s.texts, v, []) && Foot(h, s.elms, v) <= Between(e, h.next)
  {
    var node := Text(PrimString(TextOf(s.texts, v).value));
    var made := CreateNode(s.host, node);
    CreateNodeSpec(s.host, node);
    AppendUnlisted(made.0, e, made.1);
    var h := AppendChild(made.0, e, made.1);
    assert h.kids[e] == [made.1];
    assert Foot(h, s.elms, v) == {e, made.1};
  }

  /** An element whose children list is that of its mirrored children is
      mirrored, and its footprint adds only itself to theirs. */
  lemma ElementMirrored(h: Host, elms: map<VId, HostId>, texts: map<VId, Prim>, v: VNode, e: HostId, hi: nat)
    requires IsElement(v) && v.children.Some? && e < hi
    requires v.id in elms && elms[v.id] == e && e in h.info && h.info[e].Element? && e in h.kids
    requires h.kids[e] == LiveElms(elms, v.children.value.items)
    requires MirroredUpTo(h, elms, texts, v, |v.children.value.items|, e + 1, hi)
    ensures Mirrors(h, elms, texts, v, [])
    ensures Foot(h, elms, v) <= Between(e, hi)
  {
    var items := v.children.value.items;
    forall x | x in KidSet(h, e) ensures x in Between(e, hi) {
      LiveElmsInFoot(h, elms, items, x);
    }
    forall x | x in FootFrom(h, elms, v, 0) ensures x in Between(e, hi) {
      FootFromMember(h, elms, v, 0, x);
    }
  }

  /** The children loop keeps the children list of `e` equal to the host
      nodes of the children made so far, each of them mirrored. */
  lemma {:induction false} CreateChildrenMirrors(modules: seq<Module>, s: State, v: VNode, e: HostId, i: nat)
    requires v.children.Some? && i <= |v.children.value.items|
    requires Valid(s.host) && e in s.host.kids && e < s.host.next && WellFormed(v) && DistinctIds(v)
    requires s.host.kids[e] == LiveElms(s.elms, v.children.value.items[..i])
    requires MirroredUpTo(s.host, s.elms, s.texts, v, i, e + 1, s.host.next)
    ensures var r := CreateChildren(modules, s, v, e, i);
            && e in r.host.kids && r.host.kids[e] == LiveElms(r.elms, v.children.value.items)
            && MirroredUpTo(r.host, r.elms, r.texts, v, |v.children.value.items|, e + 1, r.host.next)
    decreases v, 0, |v.children.value.items| - i, 2
  {
    var items := v.children.value.items;
    if i == |items| {
      assert items[..i] == items;
    } else if items[i].None? {
      SkipSlot(s.host, s.elms, s.texts, v, e, i);
      CreateChildrenMirrors(modules, s, v, e, i + 1);
    } else {
      var m := CreateChild(modules, s, items[i].value, e);
      assert CreateChildren(modules, s, v, e, i) == CreateChildren(modules, m, v, e, i + 1);
      CreateChildStep(modules, s, v, e, i);
      CreateChildrenMirrors(modules, m, v, e, i + 1);
    }
  }

  /** A null slot leaves the invariant of the children loop as it is. */
  lemma SkipSlot(h: Host, elms: map<VId, HostId>, texts: map<VId, Prim>, v: VNode, e: HostId, i: nat)
    requires v.children.Some? && i < |v.children.value.items| && v.children.value.items[i].None?
    requires e in h.kids && h.kids[e] == LiveElms(elms, v.children.value.items[..i])
    requires MirroredUpTo(h, elms, texts, v, i, e + 1, h.next)
    ensures h.kids[e] == LiveElms(elms, v.children.value.items[..i + 1])
    ensures MirroredUpTo(h, elms, texts, v, i + 1, e + 1, h.next)
  {
    var items := v.children.value.items;
    assert items[..i + 1] == items[..i] + [items[i]];
    LiveElmsAppend(elms, items[..i], [items[i]]);
    LiveElmsOne(elms, items[i]);
  }

  /** One round of the children loop keeps the loop's invariant. */
  lemma CreateChildStep(modules: seq<Module>, s: State, v: VNode, e: HostId, i: nat)
    requires v.children.Some? && i < |v.children.value.items| && v.children.value.items[i].Some?
    requires Valid(s.host) && e in s.host.kids && e < s.host.next && WellFormed(v) && DistinctIds(v)
    requires s.host.kids[e] == LiveElms(s.elms, v.children.value.items[..i])
    requires MirroredUpTo(s.host, s.elms, s.texts, v, i, e + 1, s.host.next)
    ensures var m := CreateChild(modules, s, v.children.value.items[i].value, e);
            && Valid(m.host) && e in m.host.kids && e < m.host.next
            && m.host.kids[e] == LiveElms(m.elms, v.children.value.items[..i + 1])
            && MirroredUpTo(m.host, m.elms, m.texts, v, i + 1, e + 1, m.host.next)
    decreases v, 0, |v.children.value.items| - i, 1
  {
    var c := v.children.value.items[i].value;
    var m := CreateChild(modules, s, c, e);
    IdsChild(v, i);
    CreateChildFacts(modules, s, c, e);
    ChildAppended(s.host, s.elms, m.host, m.elms, v, e, i);
    ChildrenKept(s.host, s.elms, s.texts, m.host, m.elms, m.texts, v, e, i);
  }

  /** One round of the loop, `appendChild(elm, createElm(ch))`, in terms
      of what it changes: the new child's subtree is mirrored on new host
      nodes, its host node is appended to `e`, and nothing else changes
      except the fields of the child's subtree. */
  lemma CreateChildFacts(modules: seq<Module>, s: State, c: VNode, e: HostId)
    requires Valid(s.host) && e in s.host.kids && e < s.host.next && WellFormed(c) && DistinctIds(c)
    ensures var m := CreateChild(modules, s, c, e);
            var born := Between(s.host.next, m.host.next);
            && Valid(m.host) && s.host.next <= m.host.next
            && e in m.host.kids && c.id in m.elms && m.host.kids[e] == s.host.kids[e] + [m.elms[c.id]]
            && Outside(s.host, m.host, born + {e})
            && KeptOutside(s.elms, m.elms, Ids(c)) && KeptOutside(s.texts, m.texts, Ids(c))
            && Mirrors(m.host, m.elms, m.texts, c, []) && Foot(m.host, m.elms, c) <= born
    decreases c, 4, 0, 0
  {
    var made := CreateElm(modules, s, c);
    var born := Between(s.host.next, made.0.host.next);
    CreateElmFacts(modules, s, c);
    assert e !in born;
    AppendMirrored(made.0.host, made.0.elms, made.0.texts, c, e, made.1, s.host.next);
    OutsideGrow(s.host, made.0.host, AppendChild(made.0.host, e, made.1), born, {e}, born + {e});
  }

  /** What `createElm` guarantees, gathered. */
  lemma CreateElmFacts(modules: seq<Module>, s: State, c: VNode)
    requires Valid(s.host) && WellFormed(c) && DistinctIds(c)
    ensures var made := CreateElm(modules, s, c);
            var born := Between(s.host.next, made.0.host.next);
            && Valid(made.0.host) && made.1 == s.host.next < made.0.host.next
            && made.1 in made.0.host.kids && made.1 !in made.0.host.parent
            && c.id in made.0.elms && made.0.elms[c.id] == made.1
            && Outside(s.host, made.0.host, born)
            && KeptOutside(s.elms, made.0.elms, Ids(c)) && KeptOutside(s.texts, made.0.texts, Ids(c))
            && Mirrors(made.0.host, made.0.elms, made.0.texts, c, []) && Foot(made.0.host, made.0.elms, c) <= born
    decreases c, 3, 1, 0
  {
    ValidParentsBelow(s.host);
    CreateElmFrame(modules, s, c);
    CreateElmValid(modules, s, c);
    CreateElmMirrors(modules, s, c);
  }

  /** Appending the root `x` of a mirrored subtree to `e`, outside the
      subtree, keeps it mirrored and the host consistent. */
  lemma AppendMirrored(h: Host, elms: map<VId, HostId>, texts: map<VId, Prim>, c: VNode, e: HostId, x: HostId, lo: nat)
    requires Valid(h) && e in h.kids && e < lo && x in h.kids && x !in h.parent
    requires Mirrors(h, elms, texts, c, []) && Foot(h, elms, c) <= Between(lo, h.next)
    ensures var h' := AppendChild(h, e, x);
            && Valid(h') && h'.next == h.next && h'.kids == h.kids[e := h.kids[e] + [x]]
            && Outside(h, h', {e})
            && Mirrors(h', elms, texts, c, []) && Foot(h', elms, c) == Foot(h, elms, c)
  {
    AppendUnlisted(h, e, x);
    var h' := AppendChild(h, e, x);
    assert e !in Foot(h, elms, c);
    MirrorsFrame(h, h', elms, elms, texts, texts, c, [], {e}, {});
    FootFrame(h, h', elms, elms, c, {e}, {});
  }

  /** Appending the new child's host node extends the list of the children
      made so far by one slot. */
  lemma ChildAppended(h: Host, elms: map<VId, HostId>, h': Host, elms': map<VId, HostId>, v: VNode, e: HostId, i: nat)
    requires v.children.Some? && i < |v.children.value.items| && v.children.value.items[i].Some? && DistinctIds(v)
    requires e in h.kids && h.kids[e] == LiveElms(elms, v.children.value.items[..i])
    requires forall j :: 0 <= j < i && v.children.value.items[j].Some? ==> v.children.value.items[j].value.id in elms
    requires var c := v.children.value.items[i].value;
             && e in h'.kids && c.id in elms' && h'.kids[e] == h.kids[e] + [elms'[c.id]]
             && KeptOutside(elms, elms', Ids(c))
    ensures h'.kids[e] == LiveElms(elms', v.children.value.items[..i + 1])
  {
    var items := v.children.value.items;
    var c := items[i].value;
    forall j | 0 <= j < |items[..i]| && items[..i][j].Some?
      ensures items[..i][j].value.id in elms && items[..i][j].value.id !in Ids(c)
    {
      assert Ids(items[j].value) !! Ids(c);
      assert items[j].value.id in Ids(items[j].value);
    }
    LiveElmsKept(elms, elms', items[..i], Ids(c));
    assert items[..i + 1] == items[..i] + [items[i]];
    LiveElmsAppend(elms', items[..i], [items[i]]);
    LiveElmsOne(elms', items[i]);
  }

  /** The children made earlier stay mirrored when the next one is made. */
  lemma ChildrenKept(h: Host, elms: map<VId, HostId>, texts: map<VId, Prim>,
                     h': Host, elms': map<VId, HostId>, texts': map<VId, Prim>, v: VNode, e: HostId, i: nat)
    requires v.children.Some? && i < |v.children.value.items| && v.children.value.items[i].Some? && DistinctIds(v)
    requires e < h.next <= h'.next
    requires MirroredUpTo(h, elms, texts, v, i, e + 1, h.next)
    requires var c := v.children.value.items[i].value;
             && Outside(h, h', Between(h.next, h'.next) + {e})
             && KeptOutside(elms, elms', Ids(c)) && KeptOutside(texts, texts', Ids(c))
             && Mirrors(h', elms', texts', c, []) && Foot(h', elms', c) <= Between(h.next, h'.next)
    ensures MirroredUpTo(h', elms', texts', v, i + 1, e + 1, h'.next)
  {
    var items := v.children.value.items;
    var c := items[i].value;
    var changed := Between(h.next, h'.next) + {e};
    forall j | 0 <= j < i + 1 && items[j].Some?
      ensures Mirrors(h', elms', texts', items[j].value, []) && Foot(h', elms', items[j].value) <= Between(e + 1, h'.next)
    {
      if j < i {
        assert Ids(items[j].value) !! Ids(c);
        MirrorsFrame(h, h', elms, elms', texts, texts', items[j].value, [], changed, Ids(c));
        FootFrame(h, h', elms, elms', items[j].value, changed, Ids(c));
      }
    }
  }
}
