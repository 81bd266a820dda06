/** The closure `init` returns (src/package/init.ts:56-413) as an object:
    the module list and the hook registry it builds once, and the state
    its inner functions change as they run — the host tree, the `elm` and
    `text` fields written into vnodes, the hook calls made, the insert
    queue and the `rm` continuations still held by remove hooks. Every
    method does what the function of the same name in Creation, Removal,
    Diff or Patching says, step by step as the source does. */
module Patchers {
  import opened Wrappers
  import opened VNodes
  import opened HostTree
  import opened Selectors
  import opened Hooks
  import opened Events
  import opened Countdowns
  import opened Trees
  import opened States
  import opened KeyMaps
  import Creation
  import Removal
  import Diff
  import Patching

  class Patcher {
    const modules: seq<Module>
    const cbs: Registry
    var host: Host
    var elms: map<VId, HostId>
    var texts: map<VId, Prim>
    var trace: seq<Event>
    var queue: seq<VNode>
    var pending: seq<Countdown>

    /** The state the inner functions work on. */
    function Now(): State
      reads this
    {
      State(host, elms, texts, trace, queue, pending)
    }

    /** `init(modules, domApi)`: the registry is filled phase by phase,
        module by module; nothing has been patched yet. */
    constructor (modules: seq<Module>, h: Host)
      ensures this.modules == modules && IsRegistry(modules, cbs)
      ensures Now() == State(h, map[], map[], [], [], [])
    {
      this.modules := modules;
      var registry := Register(modules);
      cbs := registry;
      host, elms, texts, trace, queue, pending := h, map[], map[], [], [], [];
    }

    /** `for (i = 0; i < cbs[ph].length; ++i) cbs[ph][i](…, vnode)`. */
    method CallModules(ph: Phase, v: VId)
      requires IsRegistry(modules, cbs)
      modifies this
      ensures Now() == old(Now()).(trace := old(trace) + ModuleEvents(Defined(modules, ph), ph, v))
    {
      var hooks := cbs[ph];
      var i := 0;
      while i < |hooks|
        invariant 0 <= i <= |hooks|
        invariant Now() == old(Now()).(trace := old(trace) + ModuleEvents(hooks[..i], ph, v))
      {
        assert ModuleEvents(hooks[..i + 1], ph, v) == ModuleEvents(hooks[..i], ph, v) + [ModuleCall(ph, hooks[i], v)];
        trace := trace + [ModuleCall(ph, hooks[i], v)];
        i := i + 1;
      }
      assert hooks[..i] == hooks;
    }

    /** `createElm(vnode, insertedVnodeQueue)`. */
    method CreateElm(v: VNode) returns (e: HostId)
      requires IsRegistry(modules, cbs)
      modifies this
      ensures (Now(), e) == Creation.CreateElm(modules, old(Now()), v)
      decreases v, 3
    {
      trace := trace + NodeEvents(v, InitHook);
      if v.sel == Some("!") {
        if TextOf(texts, v).None? {
          texts := texts[v.id := PStr("")];
        }
        var made := CreateNode(host, Comment(CommentData(TextOf(texts, v))));
        host, elms, e := made.0, elms[v.id := made.1], made.1;
      } else if v.sel.Some? {
        e := CreateElement(v);
      } else {
        var made := CreateNode(host, Text(if TextOf(texts, v).Some? then PrimString(TextOf(texts, v).value) else "undefined"));
        host, elms, e := made.0, elms[v.id := made.1], made.1;
      }
    }

    /** The element branch of `createElm`: the element with the selector's
        id and classes, the module `create` hooks, the children (or the
        text node), the own `create` hook and the queue push. */
    method CreateElement(v: VNode) returns (e: HostId)
      requires IsRegistry(modules, cbs) && v.sel.Some?
      modifies this
      ensures (Now(), e) == Creation.CreateElement(modules, old(Now()), v)
      decreases v, 2
    {
      e := OpenElement(v);
      ghost var afterOpen := Now();
      if v.children.Some? {
        var items := v.children.value.items;
        var i := 0;
        while i < |items|
          invariant 0 <= i <= |items|
          invariant Creation.CreateChildren(modules, Now(), v, e, i) == Creation.CreateChildren(modules, afterOpen, v, e, 0)
        {
          if items[i].Some? {
            var c := CreateElm(items[i].value);
            host := AppendChild(host, e, c);
          }
          i := i + 1;
        }
        assert Creation.CreateChildren(modules, Now(), v, e, i) == Now();
      } else if TextOf(texts, v).Some? {
        var made := CreateNode(host, Text(PrimString(TextOf(texts, v).value)));
        host := AppendChild(made.0, e, made.1);
      }
      assert Now() == Creation.CreateContent(modules, afterOpen, v, e);
      assert Creation.OpenElement(modules, old(Now()), v) == (afterOpen, e);
      ghost var content := Now();
      trace := trace + NodeEvents(v, CreateHook);
      if HasHook(v, InsertHook) {
        queue := queue + [v];
      } else {
        assert queue == queue + [];
      }
      assert Now() == content.(trace := content.trace + NodeEvents(v, CreateHook),
                               queue := content.queue + if HasHook(v, InsertHook) then [v] else []);
    }

    /** `api.createElement(tag)` (or `createElementNS`), the `id` and
        `class` attributes, `vnode.elm`, and the module `create` hooks. */
    method OpenElement(v: VNode) returns (e: HostId)
      requires IsRegistry(modules, cbs) && v.sel.Some?
      modifies this
      ensures (Now(), e) == Creation.OpenElement(modules, old(Now()), v)
    {
      var p := Parse(v.sel.value);
      var made := HostTree.CreateElement(host, p.tag, Creation.NsOf(v));
      host, e := made.0, made.1;
      if p.id.Some? {
        host := SetAttribute(host, e, "id", p.id.value);
      }
      if p.className.Some? {
        host := SetAttribute(host, e, "class", p.className.value);
      }
      elms := elms[v.id := e];
      CallModules(Create, v.id);
    }

    /** `addVnodes(parentElm, before, vnodes, startIdx, endIdx)`. */
    method AddVnodes(p: HostId, before: Option<HostId>, items: seq<Option<VNode>>, startIdx: int, endIdx: int)
      requires IsRegistry(modules, cbs)
      modifies this
      ensures Now() == Diff.AddVnodes(modules, old(Now()), p, before, items, startIdx, endIdx)
    {
      var i := startIdx;
      while i <= endIdx
        invariant startIdx <= i && (i <= endIdx + 1 || i == startIdx)
        invariant Diff.AddVnodes(modules, Now(), p, before, items, i, endIdx)
               == Diff.AddVnodes(modules, old(Now()), p, before, items, startIdx, endIdx)
        decreases endIdx - i
      {
        var ch := SlotAt(items, i);
        if ch.Some? {
          var c := CreateElm(ch.value);
          host := InsertBefore(host, p, c, before);
        }
        i := i + 1;
      }
    }

    /** `invokeDestroyHook(vnode)`: nothing without data; otherwise the own
        `destroy` hook, the module `destroy` hooks, then every non-null
        child in order. */
    method InvokeDestroyHook(v: VNode)
      requires IsRegistry(modules, cbs)
      modifies this
      ensures Now() == old(Now()).(trace := old(trace) + DestroyEvents(Defined(modules, Destroy), v))
      decreases v, 1
    {
      var destroys := Defined(modules, Destroy);
      if v.data.Some? {
        trace := trace + NodeEvents(v, DestroyHook);
        CallModules(Destroy, v.id);
        ghost var t := trace;
        if v.children.Some? {
          DestroyChildren(v);
        }
        assert trace == t + if v.children.Some? then DestroyEventsFrom(destroys, v, 0) else [];
        Assoc(old(trace), NodeEvents(v, DestroyHook), ModuleEvents(destroys, Destroy, v.id));
        Assoc(old(trace) + NodeEvents(v, DestroyHook), ModuleEvents(destroys, Destroy, v.id),
              if v.children.Some? then DestroyEventsFrom(destroys, v, 0) else []);
        Assoc(old(trace), NodeEvents(v, DestroyHook) + ModuleEvents(destroys, Destroy, v.id),
              if v.children.Some? then DestroyEventsFrom(destroys, v, 0) else []);
      } else {
        assert trace == trace + [];
      }
    }

    /** The loop of `invokeDestroyHook` over the non-null children. */
    method DestroyChildren(v: VNode)
      requires IsRegistry(modules, cbs) && v.children.Some?
      modifies this
      ensures Now() == old(Now()).(trace := old(trace) + DestroyEventsFrom(Defined(modules, Destroy), v, 0))
      decreases v, 0
    {
      var destroys := Defined(modules, Destroy);
      var items := v.children.value.items;
      var j := 0;
      while j < |items|
        invariant 0 <= j <= |items|
        invariant Now() == old(Now()).(trace := trace)
        invariant trace + DestroyEventsFrom(destroys, v, j) == old(trace) + DestroyEventsFrom(destroys, v, 0)
      {
        ghost var before := trace;
        var rest := DestroyEventsFrom(destroys, v, j + 1);
        if items[j].Some? {
          InvokeDestroyHook(items[j].value);
          Assoc(before, DestroyEvents(destroys, items[j].value), rest);
        }
        j := j + 1;
      }
      assert trace == trace + DestroyEventsFrom(destroys, v, j);
    }

    /** One round of the loop of `removeVnodes` on a non-null child: a
        text vnode leaves the parent at once; any other gets its destroy
        hooks, the countdown of `createRmCb(ch.elm, cbs.remove.length + 1)`,
        the module `remove` hooks and its own `remove` hook or a direct
        `rm()`. A countdown some hook still holds goes to `pending`. */
    method RemoveOne(p: HostId, ch: VNode)
      requires IsRegistry(modules, cbs)
      modifies this
      ensures Now() == Removal.RemoveOne(modules, old(Now()), p, ch)
    {
      if ch.sel.None? {
        var x := ElmOf(Now(), ch);
        if x.Some? {
          host := RemoveChild(host, p, x.value);
        }
      } else {
        InvokeDestroyHook(ch);
        ghost var destroyed := Now();
        var removes := cbs[Remove];
        var rm := Countdown(ElmOf(Now(), ch), |removes| + 1);
        ghost var rm0 := rm;
        var i := 0;
        while i < |removes|
          invariant 0 <= i <= |removes|
          invariant Removal.ModuleRemoves(modules, removes, Now(), ch, rm, i)
                 == Removal.ModuleRemoves(modules, removes, destroyed, ch, rm0, 0)
        {
          trace := trace + [ModuleCall(Remove, removes[i], ch.id)];
          if Removal.SyncModule(modules, removes[i]) {
            var called := Removal.CallRm(host, rm);
            host, rm := called.0, called.1;
          }
          i := i + 1;
        }
        trace := trace + NodeEvents(ch, RemoveHook);
        if !Removal.RemovesLater(ch) {
          var called := Removal.CallRm(host, rm);
          host, rm := called.0, called.1;
        }
        if rm.listeners > 0 {
          pending := pending + [rm];
        } else {
          assert pending == pending + [];
        }
      }
    }

    /** `removeVnodes(parentElm, vnodes, startIdx, endIdx)`. */
    method RemoveVnodes(p: HostId, items: seq<Option<VNode>>, startIdx: int, endIdx: int)
      requires IsRegistry(modules, cbs)
      modifies this
      ensures Now() == Removal.RemoveVnodes(modules, old(Now()), p, items, startIdx, endIdx)
    {
      var i := startIdx;
      while i <= endIdx
        invariant startIdx <= i && (i <= endIdx + 1 || i == startIdx)
        invariant Removal.RemoveVnodes(modules, Now(), p, items, i, endIdx)
               == Removal.RemoveVnodes(modules, old(Now()), p, items, startIdx, endIdx)
        decreases endIdx - i
      {
        var ch := SlotAt(items, i);
        if ch.Some? {
          RemoveOne(p, ch.value);
        }
        i := i + 1;
      }
    }

    /** A remove hook that kept `rm` calls it later: the `k`-th pending
        countdown goes down by one, and the host node leaves its parent
        when it reaches zero. */
    method CallPending(k: nat)
      requires k < |pending|
      modifies this
      ensures var called := Removal.CallRm(old(host), old(pending[k]));
              Now() == old(Now()).(host := called.0, pending := old(pending)[k := called.1])
      ensures pending[k].listeners == old(pending[k].listeners) - 1
    {
      var called := Removal.CallRm(host, pending[k]);
      host, pending := called.0, pending[k := called.1];
    }

    /** `patchVnode(oldVnode, vnode)`: the `prepatch` hook, `vnode.elm`,
        then, unless both are the same object, the `update` hooks when
        there is data, the text/children case analysis and `postpatch`. */
    method PatchVnode(oldV: VNode, v: VNode)
      requires IsRegistry(modules, cbs)
      modifies this
      ensures Now() == Diff.PatchVnode(modules, false, old(Now()), oldV, v)
      decreases v, 4
    {
      trace := trace + NodeEvents(v, PrepatchHook);
      var elm := ElmOf(Now(), oldV);
      if elm.None? {
        return;
      }
      elms := elms[v.id := elm.value];
      if oldV.id == v.id {
        return;
      }
      if v.data.Some? {
        CallModules(Update, v.id);
        trace := trace + NodeEvents(v, UpdateHook);
      }
      PatchContent(oldV, v, elm.value);
      trace := trace + NodeEvents(v, PostpatchHook);
    }

    /** The text/children case analysis of `patchVnode` on the element `e`. */
    method PatchContent(oldV: VNode, v: VNode, e: HostId)
      requires IsRegistry(modules, cbs)
      modifies this
      ensures Now() == Diff.PatchContent(modules, false, old(Now()), oldV, v, e)
      decreases v, 3
    {
      var oldText, text := TextOf(texts, oldV), TextOf(texts, v);
      if text.None? {
        if oldV.children.Some? && v.children.Some? {
          if oldV.children.value.ref != v.children.value.ref {
            UpdateChildren(e, oldV.children.value.items, v);
          }
        } else if v.children.Some? {
          if oldText.Some? {
            host := SetTextContent(host, e, "");
          }
          AddVnodes(e, None, v.children.value.items, 0, |v.children.value.items| - 1);
        } else if oldV.children.Some? {
          RemoveVnodes(e, oldV.children.value.items, 0, |oldV.children.value.items| - 1);
        } else if oldText.Some? {
          host := SetTextContent(host, e, "");
        }
      } else if oldText != text {
        if oldV.children.Some? {
          RemoveVnodes(e, oldV.children.value.items, 0, |oldV.children.value.items| - 1);
        }
        host := SetTextContent(host, e, PrimString(text.value));
      }
    }

    /** `updateChildren(parentElm, oldCh, newCh)` with `newCh` the children
        of `v`. The slots the keyed branch sets to undefined are those of
        `slots`, a copy of `oldCh`. */
    method UpdateChildren(p: HostId, oldCh: seq<Option<VNode>>, v: VNode)
      requires IsRegistry(modules, cbs) && v.children.Some?
      modifies this
      ensures Now() == Diff.UpdateChildren(modules, false, old(Now()), p, oldCh, v)
      decreases v, 2
    {
      var newCh := v.children.value.items;
      var slots := new Option<VNode>[|oldCh|](i requires 0 <= i < |oldCh| => oldCh[i]);
      assert slots[..] == oldCh;
      var os, oe, ns, ne := 0, |oldCh| - 1, 0, |newCh| - 1;
      var oldStart, oldEnd := SlotAt(oldCh, 0), SlotAt(oldCh, |oldCh| - 1);
      var keys: Option<map<Key, int>> := None;
      while os <= oe && ns <= ne
        invariant Diff.UpdateLoop(modules, false, Now(), p, v, Diff.Cursors(os, oe, ns, ne, oldStart, oldEnd, slots[..], keys))
               == Diff.UpdateLoop(modules, false, old(Now()), p, v, Diff.Start(oldCh, newCh))
        decreases (oe - os) + (ne - ns) + 2
      {
        os, oe, ns, ne, oldStart, oldEnd, keys := Round(p, v, slots, os, oe, ns, ne, oldStart, oldEnd, keys);
      }
      Cleanup(p, v, Diff.Cursors(os, oe, ns, ne, oldStart, oldEnd, slots[..], keys));
    }

    /** After the loop: the new children left are added before the node
        of the new child right after the window, or the old children left
        are removed. */
    method Cleanup(p: HostId, v: VNode, c: Diff.Cursors)
      requires IsRegistry(modules, cbs) && v.children.Some?
      modifies this
      ensures Now() == Diff.Finish(modules, false, old(Now()), p, v, c)
    {
      var newCh := v.children.value.items;
      if c.os <= c.oe || c.ns <= c.ne {
        if c.os > c.oe {
          // `newCh[newEndIdx + 1] == null ? null : newCh[newEndIdx + 1].elm`
          var next := if 0 <= c.ne + 1 < |newCh| then newCh[c.ne + 1] else None;
          var before := if next.None? then None else ElmOf(Now(), next.value);
          AddVnodes(p, before, newCh, c.ns, c.ne);
        } else {
          RemoveVnodes(p, c.oldCh, c.os, c.oe);
        }
      }
    }

    /** `oldCh[i]`, undefined outside the array. */
    function Slot(slots: array<Option<VNode>>, i: int): (r: Option<VNode>)
      reads slots
      ensures r == SlotAt(slots[..], i)
    {
      if 0 <= i < slots.Length then slots[i] else None
    }

    /** One round of the loop of `updateChildren`, the branches tested in
        the source's order. */
    method Round(p: HostId, v: VNode, slots: array<Option<VNode>>,
                 os: int, oe: int, ns: int, ne: int,
                 oldStart: Option<VNode>, oldEnd: Option<VNode>, keys: Option<map<Key, int>>)
      returns (os': int, oe': int, ns': int, ne': int,
               oldStart': Option<VNode>, oldEnd': Option<VNode>, keys': Option<map<Key, int>>)
      requires IsRegistry(modules, cbs) && v.children.Some?
      modifies this, slots
      ensures var c := Diff.Cursors(os, oe, ns, ne, oldStart, oldEnd, old(slots[..]), keys);
              && Now() == Diff.UpdateStep(modules, false, old(Now()), p, v, c)
              && Diff.Cursors(os', oe', ns', ne', oldStart', oldEnd', slots[..], keys') == Diff.Advance(c, v.children.value.items)
      decreases v, 1, 2
    {
      var newCh := v.children.value.items;
      var newStart, newEnd := SlotAt(newCh, ns), SlotAt(newCh, ne);
      os', oe', ns', ne', oldStart', oldEnd', keys' := os, oe, ns, ne, oldStart, oldEnd, keys;
      if oldStart.None? {
        os' := os + 1;
        oldStart' := Slot(slots, os');
      } else if oldEnd.None? {
        oe' := oe - 1;
        oldEnd' := Slot(slots, oe');
      } else if newStart.None? {
        ns' := ns + 1;
      } else if newEnd.None? {
        ne' := ne - 1;
      } else {
        os', oe', ns', ne', oldStart', oldEnd', keys' := Matched(p, v, slots, os, oe, ns, ne, oldStart, oldEnd, keys);
      }
    }

    /** The rounds of `updateChildren` where all four vnodes at the window
        ends are defined: the four pairings are tried, then the key map. */
    method Matched(p: HostId, v: VNode, slots: array<Option<VNode>>,
                   os: int, oe: int, ns: int, ne: int,
                   oldStart: Option<VNode>, oldEnd: Option<VNode>, keys: Option<map<Key, int>>)
      returns (os': int, oe': int, ns': int, ne': int,
               oldStart': Option<VNode>, oldEnd': Option<VNode>, keys': Option<map<Key, int>>)
      requires IsRegistry(modules, cbs) && v.children.Some?
      requires oldStart.Some? && oldEnd.Some?
      requires SlotAt(v.children.value.items, ns).Some? && SlotAt(v.children.value.items, ne).Some?
      modifies this, slots
      ensures var c := Diff.Cursors(os, oe, ns, ne, oldStart, oldEnd, old(slots[..]), keys);
              && Now() == Diff.UpdateStep(modules, false, old(Now()), p, v, c)
              && Diff.Cursors(os', oe', ns', ne', oldStart', oldEnd', slots[..], keys') == Diff.Advance(c, v.children.value.items)
      decreases v, 1, 1
    {
      var newCh := v.children.value.items;
      var newStart, newEnd := SlotAt(newCh, ns).value, SlotAt(newCh, ne).value;
      os', oe', ns', ne', oldStart', oldEnd', keys' := os, oe, ns, ne, oldStart, oldEnd, keys;
      if SameVnode(oldStart.value, newStart) {
        PatchVnode(oldStart.value, newStart);
        os' := os + 1;
        oldStart' := Slot(slots, os');
        ns' := ns + 1;
      } else if SameVnode(oldEnd.value, newEnd) {
        PatchVnode(oldEnd.value, newEnd);
        oe' := oe - 1;
        oldEnd' := Slot(slots, oe');
        ne' := ne - 1;
      } else {
        os', oe', ns', ne', oldStart', oldEnd', keys' := Crossed(p, v, slots, os, oe, ns, ne, oldStart, oldEnd, keys);
      }
    }

    /** The rounds where neither window end pairs with its own side: an
        old end moves across, or the key map decides. */
    method Crossed(p: HostId, v: VNode, slots: array<Option<VNode>>,
                   os: int, oe: int, ns: int, ne: int,
                   oldStart: Option<VNode>, oldEnd: Option<VNode>, keys: Option<map<Key, int>>)
      returns (os': int, oe': int, ns': int, ne': int,
               oldStart': Option<VNode>, oldEnd': Option<VNode>, keys': Option<map<Key, int>>)
      requires IsRegistry(modules, cbs) && v.children.Some?
      requires oldStart.Some? && oldEnd.Some?
      requires SlotAt(v.children.value.items, ns).Some? && SlotAt(v.children.value.items, ne).Some?
      requires !SameVnode(oldStart.value, SlotAt(v.children.value.items, ns).value)
      requires !SameVnode(oldEnd.value, SlotAt(v.children.value.items, ne).value)
      modifies this, slots
      ensures var c := Diff.Cursors(os, oe, ns, ne, oldStart, oldEnd, old(slots[..]), keys);
              && Now() == Diff.UpdateStep(modules, false, old(Now()), p, v, c)
              && Diff.Cursors(os', oe', ns', ne', oldStart', oldEnd', slots[..], keys') == Diff.Advance(c, v.children.value.items)
      decreases v, 1, 0
    {
      var newCh := v.children.value.items;
      var newStart, newEnd := SlotAt(newCh, ns).value, SlotAt(newCh, ne).value;
      os', oe', ns', ne', oldStart', oldEnd', keys' := os, oe, ns, ne, oldStart, oldEnd, keys;
      if SameVnode(oldStart.value, newEnd) {
        PatchVnode(oldStart.value, newEnd);
        host := Diff.InsertElm(host, p, ElmOf(Now(), oldStart.value), Diff.NextSiblingOf(host, ElmOf(Now(), oldEnd.value)));
        os' := os + 1;
        oldStart' := Slot(slots, os');
        ne' := ne - 1;
      } else if SameVnode(oldEnd.value, newStart) {
        PatchVnode(oldEnd.value, newStart);
        host := Diff.InsertElm(host, p, ElmOf(Now(), oldEnd.value), ElmOf(Now(), oldStart.value));
        oe' := oe - 1;
        oldEnd' := Slot(slots, oe');
        ns' := ns + 1;
      } else {
        os', oe', ns', ne', oldStart', oldEnd', keys' := Keyed(p, v, slots, os, oe, ns, ne, oldStart, oldEnd, keys);
      }
    }

    /** The rounds the key map decides. */
    method Keyed(p: HostId, v: VNode, slots: array<Option<VNode>>,
                 os: int, oe: int, ns: int, ne: int,
                 oldStart: Option<VNode>, oldEnd: Option<VNode>, keys: Option<map<Key, int>>)
      returns (os': int, oe': int, ns': int, ne': int,
               oldStart': Option<VNode>, oldEnd': Option<VNode>, keys': Option<map<Key, int>>)
      requires IsRegistry(modules, cbs) && v.children.Some?
      requires oldStart.Some? && oldEnd.Some?
      requires SlotAt(v.children.value.items, ns).Some? && SlotAt(v.children.value.items, ne).Some?
      requires !SameVnode(oldStart.value, SlotAt(v.children.value.items, ns).value)
      requires !SameVnode(oldEnd.value, SlotAt(v.children.value.items, ne).value)
      requires !SameVnode(oldStart.value, SlotAt(v.children.value.items, ne).value)
      requires !SameVnode(oldEnd.value, SlotAt(v.children.value.items, ns).value)
      modifies this, slots
      ensures var c := Diff.Cursors(os, oe, ns, ne, oldStart, oldEnd, old(slots[..]), keys);
              && Now() == Diff.UpdateStep(modules, false, old(Now()), p, v, c)
              && Diff.Cursors(os', oe', ns', ne', oldStart', oldEnd', slots[..], keys') == Diff.Advance(c, v.children.value.items)
      decreases v, 0
    {
      ghost var c := Diff.Cursors(os, oe, ns, ne, oldStart, oldEnd, slots[..], keys);
      var newStart := SlotAt(v.children.value.items, ns).value;
      ghost var idx := Diff.Lookup(Diff.KeysNow(c), newStart.key);
      ghost var m := Diff.Choose(c, v.children.value.items);
      assert m == if idx.None? || SlotAt(c.oldCh, idx.value).None? || SlotAt(c.oldCh, idx.value).value.sel != newStart.sel
                  then Diff.CreateNew else Diff.MoveKeyed(idx.value);
      os', oe', ns', ne', oldStart', oldEnd' := os, oe, ns + 1, ne, oldStart, oldEnd;
      keys' := KeyedRound(p, newStart, slots, os, oe, oldStart.value, keys);
    }

    /** The last branch of the loop: the key map is built on first use;
        a new child whose key is missing, or whose old vnode has another
        selector, is created before the old start; otherwise that old vnode
        is patched, its slot set to undefined, and its node moved there. */
    method KeyedRound(p: HostId, newStart: VNode, slots: array<Option<VNode>>,
                      os: int, oe: int, oldStart: VNode, keys: Option<map<Key, int>>)
      returns (keys': Option<map<Key, int>>)
      requires IsRegistry(modules, cbs)
      modifies this, slots
      ensures keys' == Some(if keys.Some? then keys.value else KeyIndex(old(slots[..]), os, oe))
      ensures var idx := Diff.Lookup(keys'.value, newStart.key);
              var old_ := SlotAt(old(slots[..]), if idx.Some? then idx.value else -1);
              if idx.None? || old_.None? || old_.value.sel != newStart.sel then
                && slots[..] == old(slots[..])
                && var made := Creation.CreateElm(modules, old(Now()), newStart);
                   Now() == made.0.(host := InsertBefore(made.0.host, p, made.1, ElmOf(made.0, oldStart)))
              else
                && slots[..] == old(slots[..])[idx.value := None]
                && var s1 := Diff.PatchVnode(modules, false, old(Now()), old_.value, newStart);
                   Now() == s1.(host := Diff.InsertElm(s1.host, p, ElmOf(s1, old_.value), ElmOf(s1, oldStart)))
      decreases newStart, 5
    {
      keys' := keys;
      if keys'.None? {
        var m := CreateKeyToOldIdx(slots, os, oe);
        keys' := Some(m);
      }
      var idx := Diff.Lookup(keys'.value, newStart.key);
      if idx.None? || Slot(slots, idx.value).None? || Slot(slots, idx.value).value.sel != newStart.sel {
        var e := CreateElm(newStart);
        host := InsertBefore(host, p, e, ElmOf(Now(), oldStart));
      } else {
        var moved := Slot(slots, idx.value).value;
        PatchVnode(moved, newStart);
        slots[idx.value] := None;
        host := Diff.InsertElm(host, p, ElmOf(Now(), moved), ElmOf(Now(), oldStart));
      }
    }

    /** `for (i = 0; i < cbs[ph].length; ++i) cbs[ph][i]()`. */
    method CallGlobals(ph: Phase)
      requires IsRegistry(modules, cbs)
      modifies this
      ensures Now() == old(Now()).(trace := old(trace) + GlobalEvents(Defined(modules, ph), ph))
    {
      var hooks := cbs[ph];
      var i := 0;
      while i < |hooks|
        invariant 0 <= i <= |hooks|
        invariant Now() == old(Now()).(trace := old(trace) + GlobalEvents(hooks[..i], ph))
      {
        assert GlobalEvents(hooks[..i + 1], ph) == GlobalEvents(hooks[..i], ph) + [GlobalCall(ph, hooks[i])];
        trace := trace + [GlobalCall(ph, hooks[i])];
        i := i + 1;
      }
      assert hooks[..i] == hooks;
    }

    /** The `insert` hooks of the queued vnodes, in queue order. */
    method CallInserted()
      modifies this
      ensures Now() == old(Now()).(trace := old(trace) + Patching.InsertCalls(old(queue)))
    {
      var i := 0;
      while i < |queue|
        invariant 0 <= i <= |queue|
        invariant Now() == old(Now()).(trace := old(trace) + Patching.InsertCalls(queue[..i]))
      {
        assert Patching.InsertCalls(queue[..i + 1]) == Patching.InsertCalls(queue[..i]) + [NodeCall(InsertHook, queue[i].id)];
        trace := trace + [NodeCall(InsertHook, queue[i].id)];
        i := i + 1;
      }
      assert queue[..i] == queue;
    }

    /** The `else` branch of `patch`: the root is replaced. */
    method ReplaceRoot(oldV: VNode, v: VNode) returns (ok: bool)
      requires IsRegistry(modules, cbs)
      modifies this
      ensures ok <==> Patching.Replace(modules, old(Now()), oldV, v).Ok?
      ensures ok ==> Now() == Patching.Replace(modules, old(Now()), oldV, v).value
    {
      var elm := ElmOf(Now(), oldV);
      if elm.None? {
        return false;
      }
      var parent := ParentNode(host, elm.value);
      var e := CreateElm(v);
      if parent.Some? {
        host := InsertBefore(host, parent.value, e, NextSibling(host, elm.value));
        RemoveVnodes(parent.value, [Some(oldV)], 0, 0);
      }
      return true;
    }

    /** `patch(oldVnode, vnode)`: the returned vnode is `vnode` itself, and
        the new state is the one the functional model gives; a thrown
        `TypeError` is an `Err`. */
    method Patch(target: Patching.Target, v: VNode, id: VId, ref: nat) returns (r: Result<VNode>)
      requires IsRegistry(modules, cbs) && Patching.Fresh(Now(), v, id, ref)
      modifies this
      ensures r.Ok? <==> Patching.Patch(modules, old(Now()), target, v, id, ref).Ok?
      ensures r.Ok? ==> r.value == v && Now() == Patching.Patch(modules, old(Now()), target, v, id, ref).value
    {
      CallGlobals(Pre);
      queue := [];
      var root := Patching.OldRoot(host, target, id, ref);
      if root.Err? {
        return Err(root.error);
      }
      if SameVnode(root.value, v) {
        PatchVnode(root.value, v);
      } else {
        var ok := ReplaceRoot(root.value, v);
        if !ok {
          return Err(TypeError);
        }
      }
      CallInserted();
      CallGlobals(Post);
      return Ok(v);
    }
  }
}
