/** Which vnodes the hook calls of `patchVnode` are made on
    (src/package/init.ts:157-173, 226-375). Creating, removing and
    patching a subtree call hooks only on vnodes of the subtrees involved,
    so the content patch of `patchVnode` calls hooks only on the old and
    new children's trees, and the only `update` calls on `vnode` itself
    are the ones `patchVnode` makes when `vnode.data` is defined. */
module Calls {
  import opened Wrappers
  import opened VNodes
  import opened HostTree
  import opened Hooks
  import opened Events
  import opened Trees
  import opened States
  import opened KeyMaps
  import opened Creation
  import opened Removal
  import opened Diff
  import opened DiffFrame

  /** Every call in `t` is made on a vnode of `a`. */
  predicate On(t: seq<Event>, a: set<VId>)
  {
    forall e :: e in t ==> !e.GlobalCall? && e.v in a
  }

  /** `r` follows `s`: the trace only grew, by calls on vnodes of `a`. */
  predicate CallsOn(s: State, r: State, a: set<VId>)
  {
    s.trace <= r.trace && On(r.trace[|s.trace|..], a)
  }

  /** An `update` call on the vnode `id`: a module's or its own. */
  predicate IsUpdateOn(e: Event, id: VId)
  {
    || (e.ModuleCall? && e.phase == Update && e.v == id)
    || e == NodeCall(UpdateHook, id)
  }

  lemma Still(s: State, r: State, a: set<VId>)
    requires r.trace == s.trace
    ensures CallsOn(s, r, a)
  {
    assert r.trace[|s.trace|..] == [];
  }

  lemma Appended(s: State, r: State, d: seq<Event>, a: set<VId>)
    requires r.trace == s.trace + d && On(d, a)
    ensures CallsOn(s, r, a)
  {
    assert r.trace[|s.trace|..] == d;
  }

  lemma CallsOnTrans(s: State, r: State, t: State, a: set<VId>, b: set<VId>, c: set<VId>)
    requires CallsOn(s, r, a) && CallsOn(r, t, b) && a <= c && b <= c
    ensures CallsOn(s, t, c)
  {
    var d1, d2 := r.trace[|s.trace|..], t.trace[|r.trace|..];
    assert r.trace == s.trace + d1;
    assert t.trace == r.trace + d2;
    assert t.trace == s.trace + (d1 + d2);
    Appended(s, t, d1 + d2, c);
  }

  lemma NodeEventsOn(v: VNode, k: NodeHook)
    ensures On(NodeEvents(v, k), {v.id})
  {
  }

  lemma ModuleEventsOn(ms: seq<nat>, ph: Phase, id: VId)
    ensures On(ModuleEvents(ms, ph, id), {id})
  {
    var r := ModuleEvents(ms, ph, id);
    forall e | e in r ensures !e.GlobalCall? && e.v in {id} {
      var i :| 0 <= i < |r| && r[i] == e;
    }
  }

  /** `createElm` calls hooks only on vnodes of the tree it creates. */
  lemma {:induction false} CreateEventsOn(creates: seq<nat>, v: VNode)
    ensures On(CreateEvents(creates, v), Ids(v))
    decreases v, 1, 0
  {
    NodeEventsOn(v, InitHook);
    if IsElement(v) {
      ModuleEventsOn(creates, Create, v.id);
      NodeEventsOn(v, CreateHook);
      if v.children.Some? {
        CreateEventsFromOn(creates, v, 0);
      }
    }
  }

  lemma {:induction false} CreateEventsFromOn(creates: seq<nat>, v: VNode, i: nat)
    requires v.children.Some?
    ensures On(CreateEventsFrom(creates, v, i), Ids(v))
    decreases v, 0, |v.children.value.items| - i
  {
    var items := v.children.value.items;
    if i < |items| {
      if items[i].Some? {
        CreateEventsOn(creates, items[i].value);
        assert Ids(items[i].value) <= Ids(v);
      }
      CreateEventsFromOn(creates, v, i + 1);
    }
  }

  /** Removing a child calls hooks only on vnodes of its tree. */
  lemma RemoveEventsOn(destroys: seq<nat>, removes: seq<nat>, ch: VNode)
    ensures On(RemoveEvents(destroys, removes, ch), Ids(ch))
  {
    if ch.sel.Some? {
      DestroyEventsOnly(destroys, ch);
      ModuleEventsOn(removes, Remove, ch.id);
      NodeEventsOn(ch, RemoveHook);
    }
  }

  lemma {:induction false} RemoveEventsFromOn(destroys: seq<nat>, removes: seq<nat>, items: seq<Option<VNode>>,
                                              i: int, end: int, a: set<VId>)
    requires forall k :: i <= k <= end && SlotAt(items, k).Some? ==> Ids(SlotAt(items, k).value) <= a
    ensures On(RemoveEventsFrom(destroys, removes, items, i, end), a)
    decreases end - i
  {
    if i <= end {
      if SlotAt(items, i).Some? {
        RemoveEventsOn(destroys, removes, SlotAt(items, i).value);
      }
      RemoveEventsFromOn(destroys, removes, items, i + 1, end, a);
    }
  }

  /** `removeVnodes` calls hooks only on the trees of the removed slots. */
  lemma RemoveVnodesCalls(modules: seq<Module>, s: State, p: HostId, items: seq<Option<VNode>>,
                          i: int, end: int, a: set<VId>)
    requires forall k :: i <= k <= end && SlotAt(items, k).Some? ==> Ids(SlotAt(items, k).value) <= a
    ensures CallsOn(s, RemoveVnodes(modules, s, p, items, i, end), a)
  {
    RemoveVnodesTrace(modules, s, p, items, i, end);
    RemoveEventsFromOn(Defined(modules, Destroy), Defined(modules, Remove), items, i, end, a);
    Appended(s, RemoveVnodes(modules, s, p, items, i, end),
             RemoveEventsFrom(Defined(modules, Destroy), Defined(modules, Remove), items, i, end), a);
  }

  /** `createElm` of `c`, whatever is then done with the host. */
  lemma CreateCalls(modules: seq<Module>, s: State, c: VNode, r: State, a: set<VId>)
    requires r.trace == CreateElm(modules, s, c).0.trace && Ids(c) <= a
    ensures CallsOn(s, r, a)
  {
    CreateElmTrace(modules, s, c);
    CreateEventsOn(Defined(modules, Create), c);
    Appended(s, r, CreateEvents(Defined(modules, Create), c), a);
  }

  /** `addVnodes` calls hooks only on the trees of the added slots. */
  lemma {:induction false} AddVnodesCalls(modules: seq<Module>, s: State, p: HostId, before: Option<HostId>,
                                          items: seq<Option<VNode>>, i: int, end: int, a: set<VId>)
    requires forall k :: i <= k <= end && SlotAt(items, k).Some? ==> Ids(SlotAt(items, k).value) <= a
    ensures CallsOn(s, AddVnodes(modules, s, p, before, items, i, end), a)
    decreases end - i
  {
    if i > end {
      Still(s, s, a);
    } else {
      var s1 := if SlotAt(items, i).Some? then AddOne(modules, s, p, before, SlotAt(items, i).value) else s;
      if SlotAt(items, i).Some? {
        CreateCalls(modules, s, SlotAt(items, i).value, s1, a);
      } else {
        Still(s, s1, a);
      }
      AddVnodesCalls(modules, s1, p, before, items, i + 1, end, a);
      CallsOnTrans(s, s1, AddVnodes(modules, s1, p, before, items, i + 1, end), a, a, a);
    }
  }

  /** The old vnodes the loop variables hold all lie in the trees of `a`. */
  predicate OldIn(c: Cursors, a: set<VId>)
  {
    && (c.oldStart.Some? ==> Ids(c.oldStart.value) <= a)
    && (c.oldEnd.Some? ==> Ids(c.oldEnd.value) <= a)
    && forall k :: 0 <= k < |c.oldCh| && c.oldCh[k].Some? ==> Ids(c.oldCh[k].value) <= a
  }

  lemma StartOldIn(oldCh: seq<Option<VNode>>, newCh: seq<Option<VNode>>)
    ensures OldIn(Start(oldCh, newCh), IdsOf(oldCh))
  {
    forall k | 0 <= k < |oldCh| && oldCh[k].Some? ensures Ids(oldCh[k].value) <= IdsOf(oldCh) {
      ChildIds(oldCh, k);
    }
  }

  /** A round only re-reads slots of the old array and nulls one. */
  lemma AdvanceOldIn(c: Cursors, newCh: seq<Option<VNode>>, a: set<VId>)
    requires OldIn(c, a)
    ensures OldIn(Advance(c, newCh), a)
  {
    var c1 := Advance(c, newCh);
    forall k | 0 <= k < |c1.oldCh| && c1.oldCh[k].Some? ensures Ids(c1.oldCh[k].value) <= a {
      assert c1.oldCh[k] == c.oldCh[k];
    }
  }

  /** The content patch of `patchVnode` calls hooks only on vnodes of the
      old and new children's trees. */
  lemma {:induction false} PatchVnodeCalls(modules: seq<Module>, corrected: bool, s: State, oldV: VNode, v: VNode)
    ensures CallsOn(s, PatchVnode(modules, corrected, s, oldV, v), Ids(v) + Ids(oldV))
    decreases v, 4, 0
  {
    var s1 := s.(trace := s.trace + NodeEvents(v, PrepatchHook));
    var elm := ElmOf(s1, oldV);
    var all := Ids(v) + Ids(oldV);
    NodeEventsOn(v, PrepatchHook);
    Appended(s, s1, NodeEvents(v, PrepatchHook), all);
    if elm.Some? {
      var s2 := s1.(elms := s1.elms[v.id := elm.value]);
      if oldV.id == v.id {
        Still(s1, s2, all);
        CallsOnTrans(s, s1, s2, all, all, all);
      } else {
        var upd := if v.data.Some? then ModuleEvents(Defined(modules, Update), Update, v.id) + NodeEvents(v, UpdateHook) else [];
        var s3 := s2.(trace := s2.trace + upd);
        assert s3 == if v.data.Some? then s2.(trace := s2.trace + ModuleEvents(Defined(modules, Update), Update, v.id) + NodeEvents(v, UpdateHook)) else s2;
        ModuleEventsOn(Defined(modules, Update), Update, v.id);
        NodeEventsOn(v, UpdateHook);
        Appended(s1, s3, upd, all);
        var s4 := PatchContent(modules, corrected, s3, oldV, v, elm.value);
        PatchContentCalls(modules, corrected, s3, oldV, v, elm.value);
        ContentIdsIn(v);
        ContentIdsIn(oldV);
        var r := s4.(trace := s4.trace + NodeEvents(v, PostpatchHook));
        NodeEventsOn(v, PostpatchHook);
        Appended(s4, r, NodeEvents(v, PostpatchHook), all);
        CallsOnTrans(s, s1, s3, all, all, all);
        CallsOnTrans(s, s3, s4, all, ContentIds(v) + ContentIds(oldV), all);
        CallsOnTrans(s, s4, r, all, all, all);
      }
    }
  }

  lemma {:induction false} PatchContentCalls(modules: seq<Module>, corrected: bool, s: State, oldV: VNode, v: VNode, e: HostId)
    ensures CallsOn(s, PatchContent(modules, corrected, s, oldV, v, e), ContentIds(v) + ContentIds(oldV))
    decreases v, 3, 0
  {
    var oldText, text := TextOf(s.texts, oldV), TextOf(s.texts, v);
    var all := ContentIds(v) + ContentIds(oldV);
    var r := PatchContent(modules, corrected, s, oldV, v, e);
    if text.None? && oldV.children.Some? && v.children.Some? {
      if oldV.children.value.ref != v.children.value.ref {
        UpdateChildrenCalls(modules, corrected, s, e, oldV.children.value.items, v);
      } else {
        Still(s, r, all);
      }
    } else if text.None? && v.children.Some? {
      var items := v.children.value.items;
      var s1 := if oldText.Some? then s.(host := SetTextContent(s.host, e, "")) else s;
      forall k | 0 <= k <= |items| - 1 && SlotAt(items, k).Some? ensures Ids(SlotAt(items, k).value) <= all {
        ChildIds(items, k);
      }
      AddVnodesCalls(modules, s1, e, None, items, 0, |items| - 1, all);
    } else if oldV.children.Some? && (text.None? || oldText != text) {
      var items := oldV.children.value.items;
      forall k | 0 <= k <= |items| - 1 && SlotAt(items, k).Some? ensures Ids(SlotAt(items, k).value) <= all {
        ChildIds(items, k);
      }
      RemoveVnodesCalls(modules, s, e, items, 0, |items| - 1, all);
    } else {
      Still(s, r, all);
    }
  }

  lemma {:induction false} UpdateChildrenCalls(modules: seq<Module>, corrected: bool, s: State, p: HostId,
                                               oldCh: seq<Option<VNode>>, v: VNode)
    requires v.children.Some?
    ensures CallsOn(s, UpdateChildren(modules, corrected, s, p, oldCh, v), ContentIds(v) + IdsOf(oldCh))
    decreases v, 2, 0
  {
    StartOldIn(oldCh, v.children.value.items);
    UpdateLoopCalls(modules, corrected, s, p, v, Start(oldCh, v.children.value.items), IdsOf(oldCh));
  }

  lemma {:induction false} UpdateLoopCalls(modules: seq<Module>, corrected: bool, s: State, p: HostId, v: VNode,
                                           c: Cursors, a: set<VId>)
    requires v.children.Some? && OldIn(c, a)
    ensures CallsOn(s, UpdateLoop(modules, corrected, s, p, v, c), ContentIds(v) + a)
    decreases v, 1, Measure(c) + 2
  {
    if Running(c) {
      var s1 := UpdateStep(modules, corrected, s, p, v, c);
      var c1 := Advance(c, v.children.value.items);
      UpdateStepCalls(modules, corrected, s, p, v, c, a);
      AdvanceOldIn(c, v.children.value.items, a);
      UpdateLoopCalls(modules, corrected, s1, p, v, c1, a);
      CallsOnTrans(s, s1, UpdateLoop(modules, corrected, s1, p, v, c1), ContentIds(v) + a, ContentIds(v) + a, ContentIds(v) + a);
    } else {
      FinishCalls(modules, corrected, s, p, v, c, a);
    }
  }

  lemma {:induction false} UpdateStepCalls(modules: seq<Module>, corrected: bool, s: State, p: HostId, v: VNode,
                                           c: Cursors, a: set<VId>)
    requires v.children.Some? && OldIn(c, a)
    ensures CallsOn(s, UpdateStep(modules, corrected, s, p, v, c), ContentIds(v) + a)
    decreases v, 0, 2
  {
    var newCh := v.children.value.items;
    match Choose(c, newCh)
    case SkipOldStart => Still(s, s, ContentIds(v) + a);
    case SkipOldEnd => Still(s, s, ContentIds(v) + a);
    case SkipNewStart => Still(s, s, ContentIds(v) + a);
    case SkipNewEnd => Still(s, s, ContentIds(v) + a);
    case StartStart => MovedStepCalls(modules, corrected, s, p, v, c, a);
    case EndEnd => MovedStepCalls(modules, corrected, s, p, v, c, a);
    case StartToEnd => MovedStepCalls(modules, corrected, s, p, v, c, a);
    case EndToStart => MovedStepCalls(modules, corrected, s, p, v, c, a);
    case CreateNew =>
      var y := SlotAt(newCh, c.ns).value;
      ChildIds(newCh, c.ns);
      CreateCalls(modules, s, y, UpdateStep(modules, corrected, s, p, v, c), ContentIds(v) + a);
    case MoveKeyed(idx) => MovedStepCalls(modules, corrected, s, p, v, c, a);
  }

  /** The rounds that patch an old vnode, and possibly move its node. */
  lemma {:induction false} MovedStepCalls(modules: seq<Module>, corrected: bool, s: State, p: HostId, v: VNode,
                                          c: Cursors, a: set<VId>)
    requires v.children.Some? && OldIn(c, a)
    requires var m := Choose(c, v.children.value.items);
             m.StartStart? || m.EndEnd? || m.StartToEnd? || m.EndToStart? || m.MoveKeyed?
    ensures CallsOn(s, UpdateStep(modules, corrected, s, p, v, c), ContentIds(v) + a)
    decreases v, 0, 1
  {
    var newCh := v.children.value.items;
    match Choose(c, newCh)
    case StartStart => PatchChildCalls(modules, corrected, s, c.oldStart.value, newCh, c.ns, a);
    case EndEnd => PatchChildCalls(modules, corrected, s, c.oldEnd.value, newCh, c.ne, a);
    case StartToEnd => PatchChildCalls(modules, corrected, s, c.oldStart.value, newCh, c.ne, a);
    case EndToStart => PatchChildCalls(modules, corrected, s, c.oldEnd.value, newCh, c.ns, a);
    case MoveKeyed(idx) => PatchChildCalls(modules, corrected, s, SlotAt(c.oldCh, idx).value, newCh, c.ns, a);
  }

  /** Patching the child in slot `i` against an old vnode of `a`. */
  lemma PatchChildCalls(modules: seq<Module>, corrected: bool, s: State, x: VNode, items: seq<Option<VNode>>,
                        i: int, a: set<VId>)
    requires 0 <= i < |items| && items[i].Some? && Ids(x) <= a
    ensures CallsOn(s, PatchVnode(modules, corrected, s, x, SlotAt(items, i).value), IdsOf(items) + a)
    decreases items[i].value, 5, 0
  {
    PatchVnodeCalls(modules, corrected, s, x, items[i].value);
    ChildIds(items, i);
  }

  lemma FinishCalls(modules: seq<Module>, corrected: bool, s: State, p: HostId, v: VNode, c: Cursors, a: set<VId>)
    requires v.children.Some? && OldIn(c, a)
    ensures CallsOn(s, Finish(modules, corrected, s, p, v, c), ContentIds(v) + a)
  {
    var newCh := v.children.value.items;
    var all := ContentIds(v) + a;
    if c.os <= c.oe || c.ns <= c.ne {
      if c.os > c.oe {
        forall k | c.ns <= k <= c.ne && SlotAt(newCh, k).Some? ensures Ids(SlotAt(newCh, k).value) <= all {
          ChildIds(newCh, k);
        }
        AddVnodesCalls(modules, s, p, Reference(corrected, s, newCh, c.ne), newCh, c.ns, c.ne, all);
      } else {
        RemoveVnodesCalls(modules, s, p, c.oldCh, c.os, c.oe, all);
      }
    } else {
      Still(s, s, all);
    }
  }

  /** `patchVnode(oldVnode, vnode)` with `vnode` outside the old children's
      trees and no vnode twice in its own tree: when `vnode.data` is
      undefined, no `update` hook runs on `vnode`; with
      `DiffFrame.PatchVnodeHooks`, the `update` calls on `vnode` are
      exactly the module hooks and its own hook after `prepatch`, made
      when `vnode.data` is defined and the element is patched. */
  lemma PatchVnodeUpdates(modules: seq<Module>, corrected: bool, s: State, oldV: VNode, v: VNode)
    requires DistinctIds(v) && v.id !in ContentIds(oldV)
    ensures var r := PatchVnode(modules, corrected, s, oldV, v);
            && s.trace <= r.trace
            && (v.data.None? ==> forall k :: |s.trace| <= k < |r.trace| ==> !IsUpdateOn(r.trace[k], v.id))
            && (ElmOf(s, oldV).Some? && oldV.id != v.id ==>
                  var upd := if v.data.Some? then ModuleEvents(Defined(modules, Update), Update, v.id) + NodeEvents(v, UpdateHook) else [];
                  var from := |s.trace + NodeEvents(v, PrepatchHook) + upd|;
                  forall k :: from <= k < |r.trace| - |NodeEvents(v, PostpatchHook)| ==>
                    !r.trace[k].GlobalCall? && r.trace[k].v != v.id)
  {
    var s1 := s.(trace := s.trace + NodeEvents(v, PrepatchHook));
    var elm := ElmOf(s1, oldV);
    var r := PatchVnode(modules, corrected, s, oldV, v);
    PatchVnodeCalls(modules, corrected, s, oldV, v);
    if elm.Some? && oldV.id != v.id {
      var s2 := s1.(elms := s1.elms[v.id := elm.value]);
      var upd := if v.data.Some? then ModuleEvents(Defined(modules, Update), Update, v.id) + NodeEvents(v, UpdateHook) else [];
      var s3 := s2.(trace := s2.trace + upd);
      assert s3 == if v.data.Some? then s2.(trace := s2.trace + ModuleEvents(Defined(modules, Update), Update, v.id) + NodeEvents(v, UpdateHook)) else s2;
      var s4 := PatchContent(modules, corrected, s3, oldV, v, elm.value);
      PatchContentCalls(modules, corrected, s3, oldV, v, elm.value);
      RootNotInContent(v);
      var last := NodeEvents(v, PostpatchHook);
      assert r == s4.(trace := s4.trace + last);
      forall k | |s3.trace| <= k < |r.trace| - |last| ensures !r.trace[k].GlobalCall? && r.trace[k].v != v.id {
        assert r.trace[k] == s4.trace[|s3.trace|..][k - |s3.trace|];
        assert r.trace[k] in s4.trace[|s3.trace|..];
      }
      if v.data.None? {
        assert |s3.trace| == |s.trace| && last == [];
      }
    } else if v.data.None? {
      assert |r.trace| == |s.trace|;
    }
  }
}
