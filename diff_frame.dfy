/** What `patchVnode` and `updateChildren` (src/package/init.ts:226-375)
    may change: they keep the host consistent, only append hook calls,
    and write `elm`/`text` only into vnodes of the new tree they patch.
    From this follow the hook order of `patchVnode` and that `vnode.elm`
    becomes `oldVnode.elm`. */
module DiffFrame {
  import opened Wrappers
  import opened VNodes
  import opened HostTree
  import opened Hooks
  import opened Events
  import opened Trees
  import opened States
  import opened KeyMaps
  import opened Creation
  import opened Removal
  import opened Diff

  /** `r` follows `s`: the host is consistent, the trace only grew, and
      only vnodes of `ids` had `elm` or `text` written. */
  ghost predicate Keeps(s: State, r: State, ids: set<VId>)
  {
    && Valid(r.host) && s.trace <= r.trace
    && KeptOutside(s.elms, r.elms, ids) && KeptOutside(s.texts, r.texts, ids)
  }

  lemma KeepsTrans(s: State, r: State, t: State, a: set<VId>, b: set<VId>, c: set<VId>)
    requires Keeps(s, r, a) && Keeps(r, t, b) && a <= c && b <= c
    ensures Keeps(s, t, c)
  {
    KeptOutsideTrans(s.elms, r.elms, t.elms, a, b, c);
    KeptOutsideTrans(s.texts, r.texts, t.texts, a, b, c);
  }

  lemma ChildIds(items: seq<Option<VNode>>, i: int)
    requires 0 <= i < |items| && items[i].Some?
    ensures Ids(items[i].value) <= IdsOf(items)
  {
  }

  lemma ContentIdsIn(v: VNode)
    ensures ContentIds(v) <= Ids(v)
  {
  }

  lemma InsertElmValid(h: Host, p: HostId, x: Option<HostId>, ref: Option<HostId>)
    requires Valid(h)
    ensures Valid(InsertElm(h, p, x, ref))
  {
    if x.Some? && CanInsert(h, p, x.value, ref) {
      InsertBeforeSpec(h, p, x.value, ref);
    }
  }

  lemma SetTextValid(h: Host, n: HostId, t: string)
    requires Valid(h)
    ensures Valid(SetTextContent(h, n, t))
  {
    if n in h.info {
      SetTextContentSpec(h, n, t);
    }
  }

  /** `createElm` followed by `insertBefore` of the node it made. */
  lemma CreateInsertKeeps(modules: seq<Module>, s: State, p: HostId, c: VNode, ref: Option<HostId>)
    requires Valid(s.host)
    ensures var made := CreateElm(modules, s, c);
            Keeps(s, made.0.(host := InsertBefore(made.0.host, p, made.1, ref)), Ids(c))
  {
    var made := CreateElm(modules, s, c);
    ValidParentsBelow(s.host);
    CreateElmFrame(modules, s, c);
    CreateElmValid(modules, s, c);
    CreateElmTrace(modules, s, c);
    InsertElmValid(made.0.host, p, Some(made.1), ref);
  }

  lemma {:induction false} PatchVnodeKeeps(modules: seq<Module>, corrected: bool, s: State, oldV: VNode, v: VNode)
    requires Valid(s.host)
    ensures Keeps(s, PatchVnode(modules, corrected, s, oldV, v), Ids(v))
    decreases v, 4, 0
  {
    var s1 := s.(trace := s.trace + NodeEvents(v, PrepatchHook));
    var elm := ElmOf(s1, oldV);
    if elm.Some? {
      var s2 := s1.(elms := s1.elms[v.id := elm.value]);
      if oldV.id != v.id {
        var s3 := if v.data.Some? then s2.(trace := s2.trace + ModuleEvents(Defined(modules, Update), Update, v.id) + NodeEvents(v, UpdateHook)) else s2;
        var s4 := PatchContent(modules, corrected, s3, oldV, v, elm.value);
        PatchContentKeeps(modules, corrected, s3, oldV, v, elm.value);
        ContentIdsIn(v);
        assert Keeps(s, s3, {v.id});
        KeepsTrans(s, s3, s4, {v.id}, ContentIds(v), Ids(v));
      }
    }
  }

  lemma {:induction false} PatchContentKeeps(modules: seq<Module>, corrected: bool, s: State, oldV: VNode, v: VNode, e: HostId)
    requires Valid(s.host)
    ensures Keeps(s, PatchContent(modules, corrected, s, oldV, v, e), ContentIds(v))
    decreases v, 3, 0
  {
    var oldText, text := TextOf(s.texts, oldV), TextOf(s.texts, v);
    if text.None? {
      if oldV.children.Some? && v.children.Some? {
        if oldV.children.value.ref != v.children.value.ref {
          UpdateChildrenKeeps(modules, corrected, s, e, oldV.children.value.items, v);
        }
      } else if v.children.Some? {
        var s1 := if oldText.Some? then s.(host := SetTextContent(s.host, e, "")) else s;
        SetTextValid(s.host, e, "");
        AddVnodesKeeps(modules, s1, e, None, v.children.value.items, 0, |v.children.value.items| - 1);
      } else if oldV.children.Some? {
        RemoveVnodesValid(modules, s, e, oldV.children.value.items, 0, |oldV.children.value.items| - 1);
      } else {
        SetTextValid(s.host, e, "");
      }
    } else if oldText != text {
      var s1 := if oldV.children.Some? then RemoveVnodes(modules, s, e, oldV.children.value.items, 0, |oldV.children.value.items| - 1) else s;
      if oldV.children.Some? {
        RemoveVnodesValid(modules, s, e, oldV.children.value.items, 0, |oldV.children.value.items| - 1);
      }
      SetTextValid(s1.host, e, PrimString(text.value));
    }
  }

  lemma {:induction false} UpdateChildrenKeeps(modules: seq<Module>, corrected: bool, s: State, p: HostId, oldCh: seq<Option<VNode>>, v: VNode)
    requires Valid(s.host) && v.children.Some?
    ensures Keeps(s, UpdateChildren(modules, corrected, s, p, oldCh, v), ContentIds(v))
    decreases v, 2, 0
  {
    UpdateLoopKeeps(modules, corrected, s, p, v, Start(oldCh, v.children.value.items));
  }

  lemma {:induction false} UpdateLoopKeeps(modules: seq<Module>, corrected: bool, s: State, p: HostId, v: VNode, c: Cursors)
    requires Valid(s.host) && v.children.Some?
    ensures Keeps(s, UpdateLoop(modules, corrected, s, p, v, c), ContentIds(v))
    decreases v, 1, Measure(c) + 2
  {
    if Running(c) {
      var s1 := UpdateStep(modules, corrected, s, p, v, c);
      var c1 := Advance(c, v.children.value.items);
      UpdateStepKeeps(modules, corrected, s, p, v, c);
      UpdateLoopKeeps(modules, corrected, s1, p, v, c1);
      KeepsTrans(s, s1, UpdateLoop(modules, corrected, s1, p, v, c1), ContentIds(v), ContentIds(v), ContentIds(v));
    } else {
      FinishKeeps(modules, corrected, s, p, v, c);
    }
  }

  lemma {:induction false} UpdateStepKeeps(modules: seq<Module>, corrected: bool, s: State, p: HostId, v: VNode, c: Cursors)
    requires Valid(s.host) && v.children.Some?
    ensures Keeps(s, UpdateStep(modules, corrected, s, p, v, c), ContentIds(v))
    decreases v, 0, 2
  {
    var newCh := v.children.value.items;
    match Choose(c, newCh)
    case SkipOldStart =>
    case SkipOldEnd =>
    case SkipNewStart =>
    case SkipNewEnd =>
    case StartStart => PatchStepKeeps(modules, corrected, s, p, v, c);
    case EndEnd => PatchStepKeeps(modules, corrected, s, p, v, c);
    case StartToEnd => MoveStepKeeps(modules, corrected, s, p, v, c);
    case EndToStart => MoveStepKeeps(modules, corrected, s, p, v, c);
    case CreateNew => CreateStepKeeps(modules, corrected, s, p, v, c);
    case MoveKeyed(idx) => MoveStepKeeps(modules, corrected, s, p, v, c);
  }

  /** The rounds that patch an old vnode in place. */
  lemma {:induction false} PatchStepKeeps(modules: seq<Module>, corrected: bool, s: State, p: HostId, v: VNode, c: Cursors)
    requires Valid(s.host) && v.children.Some?
    requires var m := Choose(c, v.children.value.items); m.StartStart? || m.EndEnd?
    ensures Keeps(s, UpdateStep(modules, corrected, s, p, v, c), ContentIds(v))
    decreases v, 0, 1
  {
    var newCh := v.children.value.items;
    if Choose(c, newCh).StartStart? {
      PatchChildKeeps(modules, corrected, s, c.oldStart.value, newCh, c.ns);
    } else {
      PatchChildKeeps(modules, corrected, s, c.oldEnd.value, newCh, c.ne);
    }
  }

  /** The round that creates the new start vnode. */
  lemma CreateStepKeeps(modules: seq<Module>, corrected: bool, s: State, p: HostId, v: VNode, c: Cursors)
    requires Valid(s.host) && v.children.Some? && Choose(c, v.children.value.items).CreateNew?
    ensures Keeps(s, UpdateStep(modules, corrected, s, p, v, c), ContentIds(v))
  {
    var newCh := v.children.value.items;
    var y := SlotAt(newCh, c.ns).value;
    var made := CreateElm(modules, s, y);
    assert UpdateStep(modules, corrected, s, p, v, c) == made.0.(host := InsertBefore(made.0.host, p, made.1, ElmOf(made.0, c.oldStart.value)));
    CreateInsertKeeps(modules, s, p, y, ElmOf(made.0, c.oldStart.value));
    ChildIds(newCh, c.ns);
  }

  /** The rounds that patch an old vnode and then move its node. */
  lemma {:induction false} MoveStepKeeps(modules: seq<Module>, corrected: bool, s: State, p: HostId, v: VNode, c: Cursors)
    requires Valid(s.host) && v.children.Some?
    requires var m := Choose(c, v.children.value.items); m.StartToEnd? || m.EndToStart? || m.MoveKeyed?
    ensures Keeps(s, UpdateStep(modules, corrected, s, p, v, c), ContentIds(v))
    decreases v, 0, 1
  {
    var newCh := v.children.value.items;
    match Choose(c, newCh)
    case StartToEnd =>
      var s1 := PatchVnode(modules, corrected, s, c.oldStart.value, SlotAt(newCh, c.ne).value);
      PatchChildKeeps(modules, corrected, s, c.oldStart.value, newCh, c.ne);
      MoveKeeps(s, s1, p, ElmOf(s1, c.oldStart.value), NextSiblingOf(s1.host, ElmOf(s1, c.oldEnd.value)), ContentIds(v));
    case EndToStart =>
      var s1 := PatchVnode(modules, corrected, s, c.oldEnd.value, SlotAt(newCh, c.ns).value);
      PatchChildKeeps(modules, corrected, s, c.oldEnd.value, newCh, c.ns);
      MoveKeeps(s, s1, p, ElmOf(s1, c.oldEnd.value), ElmOf(s1, c.oldStart.value), ContentIds(v));
    case MoveKeyed(idx) =>
      var moved := SlotAt(c.oldCh, idx).value;
      var s1 := PatchVnode(modules, corrected, s, moved, SlotAt(newCh, c.ns).value);
      PatchChildKeeps(modules, corrected, s, moved, newCh, c.ns);
      MoveKeeps(s, s1, p, ElmOf(s1, moved), ElmOf(s1, c.oldStart.value), ContentIds(v));
  }

  /** Patching the child in slot `i` writes only into the children's trees. */
  lemma PatchChildKeeps(modules: seq<Module>, corrected: bool, s: State, x: VNode, items: seq<Option<VNode>>, i: int)
    requires Valid(s.host) && 0 <= i < |items| && items[i].Some?
    ensures Keeps(s, PatchVnode(modules, corrected, s, x, SlotAt(items, i).value), IdsOf(items))
    decreases items[i].value, 5, 0
  {
    PatchVnodeKeeps(modules, corrected, s, x, items[i].value);
    ChildIds(items, i);
  }

  lemma MoveKeeps(s: State, s1: State, p: HostId, x: Option<HostId>, ref: Option<HostId>, ids: set<VId>)
    requires Keeps(s, s1, ids)
    ensures Keeps(s, s1.(host := InsertElm(s1.host, p, x, ref)), ids)
  {
    InsertElmValid(s1.host, p, x, ref);
  }

  lemma FinishKeeps(modules: seq<Module>, corrected: bool, s: State, p: HostId, v: VNode, c: Cursors)
    requires Valid(s.host) && v.children.Some?
    ensures Keeps(s, Finish(modules, corrected, s, p, v, c), ContentIds(v))
  {
    var newCh := v.children.value.items;
    if c.os <= c.oe || c.ns <= c.ne {
      if c.os > c.oe {
        AddVnodesKeeps(modules, s, p, Reference(corrected, s, newCh, c.ne), newCh, c.ns, c.ne);
      } else {
        RemoveVnodesValid(modules, s, p, c.oldCh, c.os, c.oe);
      }
    }
  }

  lemma {:induction false} AddVnodesKeeps(modules: seq<Module>, s: State, p: HostId, before: Option<HostId>,
                                          items: seq<Option<VNode>>, i: int, end: int)
    requires Valid(s.host)
    ensures Keeps(s, AddVnodes(modules, s, p, before, items, i, end), IdsOf(items))
    decreases end - i
  {
    if i <= end {
      var s1 := if SlotAt(items, i).Some? then AddOne(modules, s, p, before, SlotAt(items, i).value) else s;
      if SlotAt(items, i).Some? {
        CreateInsertKeeps(modules, s, p, SlotAt(items, i).value, before);
        ChildIds(items, i);
      }
      AddVnodesKeeps(modules, s1, p, before, items, i + 1, end);
      KeepsTrans(s, s1, AddVnodes(modules, s1, p, before, items, i + 1, end), IdsOf(items), IdsOf(items), IdsOf(items));
    }
  }
  /** The hook calls of `patchVnode`: `prepatch` first; nothing more when
      the old vnode has no element or the two vnodes are the same object;
      otherwise the `update` hooks (modules first, then its own) exactly
      when `vnode.data` is defined, then the content's calls, and
      `postpatch` last. */
  lemma PatchVnodeHooks(modules: seq<Module>, corrected: bool, s: State, oldV: VNode, v: VNode)
    requires Valid(s.host)
    ensures var r := PatchVnode(modules, corrected, s, oldV, v);
            var first := s.trace + NodeEvents(v, PrepatchHook);
            var upd := if v.data.Some? then ModuleEvents(Defined(modules, Update), Update, v.id) + NodeEvents(v, UpdateHook) else [];
            var last := NodeEvents(v, PostpatchHook);
            && first <= r.trace
            && (ElmOf(s, oldV).None? || oldV.id == v.id ==> r.trace == first)
            && (ElmOf(s, oldV).Some? && oldV.id != v.id ==>
                  first + upd <= r.trace && |first + upd| + |last| <= |r.trace|
                  && r.trace[|r.trace| - |last|..] == last)
  {
    var s1 := s.(trace := s.trace + NodeEvents(v, PrepatchHook));
    var elm := ElmOf(s1, oldV);
    if elm.Some? && oldV.id != v.id {
      var s2 := s1.(elms := s1.elms[v.id := elm.value]);
      var s3 := if v.data.Some? then s2.(trace := s2.trace + ModuleEvents(Defined(modules, Update), Update, v.id) + NodeEvents(v, UpdateHook)) else s2;
      var s4 := PatchContent(modules, corrected, s3, oldV, v, elm.value);
      PatchContentKeeps(modules, corrected, s3, oldV, v, elm.value);
      var r := s4.(trace := s4.trace + NodeEvents(v, PostpatchHook));
      assert r.trace[|r.trace| - |NodeEvents(v, PostpatchHook)|..] == NodeEvents(v, PostpatchHook);
    }
  }

  /** `vnode.elm` becomes `oldVnode.elm` whenever the latter is defined,
      also on the same-object short cut: the content patch writes only
      into the children's trees, which do not hold `vnode`. */
  lemma PatchVnodeElm(modules: seq<Module>, corrected: bool, s: State, oldV: VNode, v: VNode)
    requires Valid(s.host) && DistinctIds(v) && ElmOf(s, oldV).Some?
    ensures var r := PatchVnode(modules, corrected, s, oldV, v);
            v.id in r.elms && r.elms[v.id] == ElmOf(s, oldV).value
  {
    var s1 := s.(trace := s.trace + NodeEvents(v, PrepatchHook));
    var elm := ElmOf(s1, oldV);
    if oldV.id != v.id {
      var s2 := s1.(elms := s1.elms[v.id := elm.value]);
      var s3 := if v.data.Some? then s2.(trace := s2.trace + ModuleEvents(Defined(modules, Update), Update, v.id) + NodeEvents(v, UpdateHook)) else s2;
      PatchContentKeeps(modules, corrected, s3, oldV, v, elm.value);
      RootNotInContent(v);
    }
  }

  lemma RootNotInContent(v: VNode)
    requires DistinctIds(v)
    ensures v.id !in ContentIds(v)
  {
    if v.children.Some? {
      var items := v.children.value.items;
      forall i | 0 <= i < |items| && items[i].Some? ensures v.id !in Ids(items[i].value) {
      }
    }
  }
}
