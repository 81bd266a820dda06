/** `patchVnode`, `updateChildren` and `addVnodes`
    (src/package/init.ts:157-173, 226-375) as functions of the reconciler's
    state. `updateChildren` is its while-loop unrolled: the four cursors,
    the cached old start and end vnodes, the old children array with the
    slots nulled so far, and the lazily built key map are one `Cursors`
    value, and one round of the loop chooses a `Move`. */
module Diff {
  import opened Wrappers
  import opened VNodes
  import opened HostTree
  import opened Hooks
  import opened Events
  import opened Trees
  import opened States
  import opened KeyMaps
  import opened Creation
  import opened Removal

  /** The variables of the `updateChildren` loop. `newCh` is never written,
      so its start and end vnodes are read from it. */
  datatype Cursors = Cursors(
    os: int, oe: int, ns: int, ne: int,
    oldStart: Option<VNode>, oldEnd: Option<VNode>,
    oldCh: seq<Option<VNode>>,
    keys: Option<map<Key, int>>)

  /** The branch one round of the loop takes, in the order the source tests them. */
  datatype Move =
    | SkipOldStart | SkipOldEnd | SkipNewStart | SkipNewEnd
    | StartStart | EndEnd | StartToEnd | EndToStart
    | CreateNew             // the key is not in the map, or its old vnode has another `sel`
    | MoveKeyed(idx: int)   // the old vnode at `idx` has the key and the `sel`

  /** The loop runs while both windows are non-empty. */
  predicate Running(c: Cursors)
  {
    c.os <= c.oe && c.ns <= c.ne
  }

  /** The initial loop variables for `updateChildren(parent, old, newCh)`. */
  function Start(oldCh: seq<Option<VNode>>, newCh: seq<Option<VNode>>): (c: Cursors)
  {
    Cursors(0, |oldCh| - 1, 0, |newCh| - 1, SlotAt(oldCh, 0), SlotAt(oldCh, |oldCh| - 1), oldCh, None)
  }

  /** The key map: built on first use over the current old window. */
  function KeysNow(c: Cursors): map<Key, int>
  {
    if c.keys.Some? then c.keys.value else KeyIndex(c.oldCh, c.os, c.oe)
  }

  /** `oldKeyToIdx[key]`. A vnode without key is looked up as a miss, and
      so is a key the map does not hold, even one naming a member every
      object inherits, which the source reads back as a defined value. */
  function Lookup(keys: map<Key, int>, k: Option<Key>): Option<int>
  {
    if k.Some? && k.value in keys then Some(keys[k.value]) else None
  }

  /** The branch of one round. */
  function Choose(c: Cursors, newCh: seq<Option<VNode>>): (m: Move)
    ensures !(m.SkipOldStart? || m.SkipOldEnd? || m.SkipNewStart? || m.SkipNewEnd?) ==>
              c.oldStart.Some? && c.oldEnd.Some? && SlotAt(newCh, c.ns).Some? && SlotAt(newCh, c.ne).Some?
    ensures m.MoveKeyed? ==> SlotAt(c.oldCh, m.idx).Some?
  {
    var newStart, newEnd := SlotAt(newCh, c.ns), SlotAt(newCh, c.ne);
    if c.oldStart.None? then SkipOldStart
    else if c.oldEnd.None? then SkipOldEnd
    else if newStart.None? then SkipNewStart
    else if newEnd.None? then SkipNewEnd
    else if SameVnode(c.oldStart.value, newStart.value) then StartStart
    else if SameVnode(c.oldEnd.value, newEnd.value) then EndEnd
    else if SameVnode(c.oldStart.value, newEnd.value) then StartToEnd
    else if SameVnode(c.oldEnd.value, newStart.value) then EndToStart
    else
      var idx := Lookup(KeysNow(c), newStart.value.key);
      if idx.None? || SlotAt(c.oldCh, idx.value).None? || SlotAt(c.oldCh, idx.value).value.sel != newStart.value.sel
      then CreateNew
      else MoveKeyed(idx.value)
  }

  /** `(oldEndIdx - oldStartIdx) + (newEndIdx - newStartIdx)`. */
  function Measure(c: Cursors): int
  {
    (c.oe - c.os) + (c.ne - c.ns)
  }

  /** The loop variables after one round: one start cursor moves right
      and/or one end cursor moves left, the cached vnode is re-read from
      the array, and a keyed move nulls its old slot. */
  function Advance(c: Cursors, newCh: seq<Option<VNode>>): (c': Cursors)
    ensures Measure(c') == Measure(c) - 1 || Measure(c') == Measure(c) - 2
    ensures c'.os >= c.os && c'.oe <= c.oe && c'.ns >= c.ns && c'.ne <= c.ne
    ensures |c'.oldCh| == |c.oldCh|
    ensures forall k :: 0 <= k < |c.oldCh| && c'.oldCh[k] != c.oldCh[k] ==>
              c'.oldCh[k].None? && Choose(c, newCh) == MoveKeyed(k)
  {
    var nextStart := c.(os := c.os + 1, oldStart := SlotAt(c.oldCh, c.os + 1));
    match Choose(c, newCh)
    case SkipOldStart => nextStart
    case SkipOldEnd => c.(oe := c.oe - 1, oldEnd := SlotAt(c.oldCh, c.oe - 1))
    case SkipNewStart => c.(ns := c.ns + 1)
    case SkipNewEnd => c.(ne := c.ne - 1)
    case StartStart => nextStart.(ns := c.ns + 1)
    case EndEnd => c.(oe := c.oe - 1, oldEnd := SlotAt(c.oldCh, c.oe - 1), ne := c.ne - 1)
    case StartToEnd => nextStart.(ne := c.ne - 1)
    case EndToStart => c.(oe := c.oe - 1, oldEnd := SlotAt(c.oldCh, c.oe - 1), ns := c.ns + 1)
    case CreateNew => c.(ns := c.ns + 1, keys := Some(KeysNow(c)))
    case MoveKeyed(idx) => c.(ns := c.ns + 1, keys := Some(KeysNow(c)), oldCh := c.oldCh[idx := None])
  }

  /** `api.insertBefore(parent, x!, ref)`; an undefined `x` makes it throw,
      leaving the host as it is. */
  function InsertElm(h: Host, p: HostId, x: Option<HostId>, ref: Option<HostId>): Host
  {
    if x.Some? then InsertBefore(h, p, x.value, ref) else h
  }

  /** `api.nextSibling(x!)`. The source throws on an undefined `x`; here
      it has no sibling. */
  function NextSiblingOf(h: Host, x: Option<HostId>): Option<HostId>
  {
    if x.Some? then NextSibling(h, x.value) else None
  }

  /** `patchVnode(oldVnode, vnode)`. */
  function PatchVnode(modules: seq<Module>, corrected: bool, s: State, oldV: VNode, v: VNode): State
    decreases v, 4, 0
  {
    var s1 := s.(trace := s.trace + NodeEvents(v, PrepatchHook));
    var elm := ElmOf(s1, oldV);
    if elm.None? then s1
    else
      var s2 := s1.(elms := s1.elms[v.id := elm.value]);
      if oldV.id == v.id then s2
      else
        var s3 := if v.data.Some? then s2.(trace := s2.trace + ModuleEvents(Defined(modules, Update), Update, v.id) + NodeEvents(v, UpdateHook)) else s2;
        var s4 := PatchContent(modules, corrected, s3, oldV, v, elm.value);
        s4.(trace := s4.trace + NodeEvents(v, PostpatchHook))
  }

  /** The text/children case analysis of `patchVnode` on the element `e`. */
  function PatchContent(modules: seq<Module>, corrected: bool, s: State, oldV: VNode, v: VNode, e: HostId): State
    decreases v, 3, 0
  {
    var oldText, text := TextOf(s.texts, oldV), TextOf(s.texts, v);
    if text.None? then
      if oldV.children.Some? && v.children.Some? then
        if oldV.children.value.ref != v.children.value.ref then UpdateChildren(modules, corrected, s, e, oldV.children.value.items, v) else s
      else if v.children.Some? then
        var s1 := if oldText.Some? then s.(host := SetTextContent(s.host, e, "")) else s;
        AddVnodes(modules, s1, e, None, v.children.value.items, 0, |v.children.value.items| - 1)
      else if oldV.children.Some? then
        RemoveVnodes(modules, s, e, oldV.children.value.items, 0, |oldV.children.value.items| - 1)
      else if oldText.Some? then s.(host := SetTextContent(s.host, e, ""))
      else s
    else if oldText != text then
      var s1 := if oldV.children.Some? then RemoveVnodes(modules, s, e, oldV.children.value.items, 0, |oldV.children.value.items| - 1) else s;
      s1.(host := SetTextContent(s1.host, e, PrimString(text.value)))
    else s
  }

  /** `updateChildren(parentElm, oldCh, newCh)` with `newCh` the children of `v`. */
  function UpdateChildren(modules: seq<Module>, corrected: bool, s: State, p: HostId, oldCh: seq<Option<VNode>>, v: VNode): State
    requires v.children.Some?
    decreases v, 2, 0
  {
    UpdateLoop(modules, corrected, s, p, v, Start(oldCh, v.children.value.items))
  }

  /** The loop from the variables `c` on, then the clean-up after it. */
  function UpdateLoop(modules: seq<Module>, corrected: bool, s: State, p: HostId, v: VNode, c: Cursors): State
    requires v.children.Some?
    decreases v, 1, Measure(c) + 2
  {
    if Running(c) then
      UpdateLoop(modules, corrected, UpdateStep(modules, corrected, s, p, v, c), p, v, Advance(c, v.children.value.items))
    else Finish(modules, corrected, s, p, v, c)
  }

  /** What one round of the loop does to the state. */
  function UpdateStep(modules: seq<Module>, corrected: bool, s: State, p: HostId, v: VNode, c: Cursors): State
    requires v.children.Some?
    decreases v, 0, 0
  {
    var newCh := v.children.value.items;
    match Choose(c, newCh)
    case SkipOldStart => s
    case SkipOldEnd => s
    case SkipNewStart => s
    case SkipNewEnd => s
    case StartStart => PatchVnode(modules, corrected, s, c.oldStart.value, SlotAt(newCh, c.ns).value)
    case EndEnd => PatchVnode(modules, corrected, s, c.oldEnd.value, SlotAt(newCh, c.ne).value)
    case StartToEnd =>
      var s1 := PatchVnode(modules, corrected, s, c.oldStart.value, SlotAt(newCh, c.ne).value);
      s1.(host := InsertElm(s1.host, p, ElmOf(s1, c.oldStart.value), NextSiblingOf(s1.host, ElmOf(s1, c.oldEnd.value))))
    case EndToStart =>
      var s1 := PatchVnode(modules, corrected, s, c.oldEnd.value, SlotAt(newCh, c.ns).value);
      s1.(host := InsertElm(s1.host, p, ElmOf(s1, c.oldEnd.value), ElmOf(s1, c.oldStart.value)))
    case CreateNew =>
      var made := CreateElm(modules, s, SlotAt(newCh, c.ns).value);
      made.0.(host := InsertBefore(made.0.host, p, made.1, ElmOf(made.0, c.oldStart.value)))
    case MoveKeyed(idx) =>
      var moved := SlotAt(c.oldCh, idx).value;
      var s1 := PatchVnode(modules, corrected, s, moved, SlotAt(newCh, c.ns).value);
      s1.(host := InsertElm(s1.host, p, ElmOf(s1, moved), ElmOf(s1, c.oldStart.value)))
  }

  /** After the loop: the new children left are added before the
      reference node, or the old children left are removed. The reference
      is the one the source computes (`BeforeAsWritten`) unless
      `corrected` asks for the first placed node (`Before`). */
  function Finish(modules: seq<Module>, corrected: bool, s: State, p: HostId, v: VNode, c: Cursors): State
    requires v.children.Some?
  {
    var newCh := v.children.value.items;
    if c.os <= c.oe || c.ns <= c.ne then
      if c.os > c.oe then AddVnodes(modules, s, p, Reference(corrected, s, newCh, c.ne), newCh, c.ns, c.ne)
      else RemoveVnodes(modules, s, p, c.oldCh, c.os, c.oe)
    else s
  }

  /** The reference node `Finish` uses. */
  function Reference(corrected: bool, s: State, newCh: seq<Option<VNode>>, ne: int): Option<HostId>
  {
    if corrected then Before(s, newCh, ne) else BeforeAsWritten(s, newCh, ne)
  }

  /** The reference node for the new children left after the loop: the
      host node of the first non-null child after `newEndIdx`, which is
      where the children handled from the end begin. */
  function Before(s: State, newCh: seq<Option<VNode>>, ne: int): Option<HostId>
  {
    if 0 <= ne + 1 <= |newCh| then
      var placed := LiveElms(s.elms, newCh[ne + 1..]);
      if placed == [] then None else Some(placed[0])
    else None
  }

  /** The reference node as the source computes it:
      `newCh[newEndIdx + 1] == null ? null : newCh[newEndIdx + 1].elm`. */
  function BeforeAsWritten(s: State, newCh: seq<Option<VNode>>, ne: int): Option<HostId>
  {
    var slot := SlotAt(newCh, ne + 1);
    if slot.None? then None else ElmOf(s, slot.value)
  }

  /** `addVnodes(parentElm, before, items, i, end)`: every non-null slot
      is created and inserted before `before`. */
  function AddVnodes(modules: seq<Module>, s: State, p: HostId, before: Option<HostId>,
                     items: seq<Option<VNode>>, i: int, end: int): State
    decreases end - i
  {
    if i > end then s
    else
      var s1 := if SlotAt(items, i).Some? then AddOne(modules, s, p, before, SlotAt(items, i).value) else s;
      AddVnodes(modules, s1, p, before, items, i + 1, end)
  }

  /** `api.insertBefore(parentElm, createElm(ch), before)`. */
  function AddOne(modules: seq<Module>, s: State, p: HostId, before: Option<HostId>, ch: VNode): State
  {
    var made := CreateElm(modules, s, ch);
    made.0.(host := InsertBefore(made.0.host, p, made.1, before))
  }
}
