/** Where the host nodes of the new children come from after
    `updateChildren` (src/package/init.ts:226-316): every new child either
    took over the node of an old child that `sameVnode` pairs it with,
    keyed or not, or got a node created during the call; and no node
    serves two new children. */
module Reuse {
  import opened Wrappers
  import opened VNodes
  import opened HostTree
  import opened Hooks
  import opened Trees
  import opened States
  import opened KeyMaps
  import opened Creation
  import opened Removal
  import opened Diff
  import opened DiffFrame
  import opened Windows
  import opened Adding
  import opened Tracking
  import opened ChildOrder

  /** `n` is the node, in `s0`, of an old child that `sameVnode` pairs
      with `v`. */
  ghost predicate FromOld(s0: State, O: seq<Option<VNode>>, v: VNode, n: HostId)
  {
    exists k :: 0 <= k < |O| && O[k].Some? && SameVnode(O[k].value, v) && O[k].value.id in s0.elms
                && n == s0.elms[O[k].value.id]
  }

  /** The new child `v` has a node in `E`, created after `s0` or taken
      over from an old child it is `sameVnode` with. */
  ghost predicate Sourced(s0: State, O: seq<Option<VNode>>, v: VNode, E: map<VId, HostId>)
  {
    v.id in E && (E[v.id] >= s0.host.next || FromOld(s0, O, v, E[v.id]))
  }

  /** Every new child handled at the loop variables `c` is `Sourced`. */
  ghost predicate Handled(s0: State, O: seq<Option<VNode>>, N: seq<Option<VNode>>, c: Cursors, E: map<VId, HostId>)
  {
    forall j :: 0 <= j < |N| && !InNew(c, j) && N[j].Some? ==> Sourced(s0, O, N[j].value, E)
  }

  /** Every new child is `Sourced`. */
  ghost predicate Reused(s0: State, O: seq<Option<VNode>>, N: seq<Option<VNode>>, E: map<VId, HostId>)
  {
    forall j :: 0 <= j < |N| && N[j].Some? ==> Sourced(s0, O, N[j].value, E)
  }

  /** A round that patches an old child into a new one (start/start,
      end/end, the two crossed cases and the keyed move) leaves the new
      child with the node the old child had, whether or not they have
      keys; and only the new child's tree has fields written. */
  lemma RoundReuse(modules: seq<Module>, corrected: bool, s0: State, x: VNode, y: VNode, s: State, c: Cursors)
    returns (k: int, j: int)
    requires Setting(modules, corrected, s0, x, y)
    requires var O, N := x.children.value.items, y.children.value.items;
             Cur(O, N, c) && Running(c) && Tracked(s0, x, y, s, c)
    requires var m := Choose(c, y.children.value.items);
             m.StartStart? || m.EndEnd? || m.StartToEnd? || m.EndToStart? || m.MoveKeyed?
    ensures var m := Choose(c, y.children.value.items);
            && k == (if m.StartStart? || m.StartToEnd? then c.os else if m.EndEnd? || m.EndToStart? then c.oe else m.idx)
            && j == (if m.EndEnd? || m.StartToEnd? then c.ne else c.ns)
    ensures var O, N := x.children.value.items, y.children.value.items;
            && 0 <= k < |O| && O[k].Some? && 0 <= j < |N| && N[j].Some? && SameVnode(O[k].value, N[j].value)
            && InNew(c, j) && (forall j' :: InNew(Advance(c, N), j') <==> InNew(c, j') && j' != j)
    ensures var O, N, r := x.children.value.items, y.children.value.items,
                           UpdateStep(modules, corrected, s, s0.elms[x.id], y, c);
            && O[k].value.id in s.elms && O[k].value.id in s0.elms && s.elms[O[k].value.id] == s0.elms[O[k].value.id]
            && N[j].value.id in r.elms && r.elms[N[j].value.id] == s.elms[O[k].value.id]
            && KeptOutside(s.elms, r.elms, Ids(N[j].value))
  {
    var O, N, e := x.children.value.items, y.children.value.items, s0.elms[x.id];
    k, j := MatchFacts(O, N, c);
    ChildPatch(modules, corrected, s0, x, y, s, c, k, j);
    WindowIds(s0, x, y, s, c, s.elms, {});
    PatchStepElms(modules, corrected, s, e, y, c);
  }

  /** A patching round writes the fields `patchVnode` writes and no
      others: the moves that follow change only the host. */
  lemma PatchStepElms(modules: seq<Module>, corrected: bool, s: State, p: HostId, y: VNode, c: Cursors)
    requires y.children.Some?
    ensures var m, N, r := Choose(c, y.children.value.items), y.children.value.items, UpdateStep(modules, corrected, s, p, y, c);
            && (m.StartStart? ==> r.elms == PatchVnode(modules, corrected, s, c.oldStart.value, SlotAt(N, c.ns).value).elms)
            && (m.EndEnd? ==> r.elms == PatchVnode(modules, corrected, s, c.oldEnd.value, SlotAt(N, c.ne).value).elms)
            && (m.StartToEnd? ==> r.elms == PatchVnode(modules, corrected, s, c.oldStart.value, SlotAt(N, c.ne).value).elms)
            && (m.EndToStart? ==> r.elms == PatchVnode(modules, corrected, s, c.oldEnd.value, SlotAt(N, c.ns).value).elms)
            && (m.MoveKeyed? ==> r.elms == PatchVnode(modules, corrected, s, SlotAt(c.oldCh, m.idx).value, SlotAt(N, c.ns).value).elms)
  {
  }

  /** A change of the node map that touches only the identities `I`, none
      of them a handled new child's, keeps the handled children `Sourced`. */
  lemma HandledStep(s0: State, O: seq<Option<VNode>>, N: seq<Option<VNode>>, c: Cursors, c1: Cursors,
                    E: map<VId, HostId>, E1: map<VId, HostId>, I: set<VId>)
    requires Handled(s0, O, N, c, E)
    requires forall j :: InNew(c1, j) ==> InNew(c, j)
    requires KeptOutside(E, E1, I)
    requires forall j :: 0 <= j < |N| && !InNew(c, j) && N[j].Some? ==> N[j].value.id !in I
    requires forall j :: 0 <= j < |N| && InNew(c, j) && !InNew(c1, j) && N[j].Some? ==> Sourced(s0, O, N[j].value, E1)
    ensures Handled(s0, O, N, c1, E1)
  {
    forall j | 0 <= j < |N| && !InNew(c1, j) && N[j].Some? ensures Sourced(s0, O, N[j].value, E1) {
      if !InNew(c, j) {
        assert Sourced(s0, O, N[j].value, E);
      }
    }
  }

  /** The new children handled so far have no identity in the tree of
      the new child `j` still to be handled. */
  lemma HandledApart(corrected: bool, y: VNode, c: Cursors, j: int)
    requires y.children.Some? && Siblings(corrected, y)
    requires var N := y.children.value.items; 0 <= j < |N| && N[j].Some? && InNew(c, j)
    ensures var N := y.children.value.items;
            forall j' :: 0 <= j' < |N| && !InNew(c, j') && N[j'].Some? ==> N[j'].value.id !in Ids(N[j].value)
  {
    var N := y.children.value.items;
    forall j' | 0 <= j' < |N| && !InNew(c, j') && N[j'].Some? ensures N[j'].value.id !in Ids(N[j].value) {
      assert Ids(N[j'].value) !! Ids(N[j].value);
      assert N[j'].value.id in Ids(N[j'].value);
    }
  }

  /** A round that skips a null slot hands out no node. */
  lemma SkipSourced(s0: State, O: seq<Option<VNode>>, N: seq<Option<VNode>>, c: Cursors, E: map<VId, HostId>)
    requires Running(c) && 0 <= c.ns <= c.ne < |N| && Handled(s0, O, N, c, E)
    requires var m := Choose(c, N); m.SkipOldStart? || m.SkipOldEnd? || m.SkipNewStart? || m.SkipNewEnd?
    ensures Handled(s0, O, N, Advance(c, N), E)
  {
  }

  /** A round that creates the new start gives it a new node. */
  lemma CreateSourced(modules: seq<Module>, corrected: bool, s0: State, O: seq<Option<VNode>>, y: VNode,
                      s: State, p: HostId, c: Cursors)
    requires y.children.Some? && Siblings(corrected, y)
    requires var N := y.children.value.items;
             Cur(O, N, c) && Running(c) && Choose(c, N).CreateNew? && Handled(s0, O, N, c, s.elms)
    requires Valid(s.host) && s0.host.next <= s.host.next
    ensures var N := y.children.value.items;
            Handled(s0, O, N, Advance(c, N), UpdateStep(modules, corrected, s, p, y, c).elms)
  {
    var N := y.children.value.items;
    CreateFacts(O, N, c);
    var v := N[c.ns].value;
    assert NewChild(corrected, y, v);
    CreatedRoot(modules, s, v);
    CreateStepElms(modules, corrected, s, p, y, c);
    HandledApart(corrected, y, c, c.ns);
    HandledStep(s0, O, N, c, Advance(c, N), s.elms, UpdateStep(modules, corrected, s, p, y, c).elms, Ids(v));
  }

  /** A creating round writes the fields `createElm` writes and no others. */
  lemma CreateStepElms(modules: seq<Module>, corrected: bool, s: State, p: HostId, y: VNode, c: Cursors)
    requires y.children.Some? && Choose(c, y.children.value.items).CreateNew?
    ensures UpdateStep(modules, corrected, s, p, y, c).elms == CreateElm(modules, s, SlotAt(y.children.value.items, c.ns).value).0.elms
  {
  }

  /** A patching round hands the new child its partner's node. */
  lemma PatchSourced(modules: seq<Module>, corrected: bool, s0: State, x: VNode, y: VNode, s: State, c: Cursors)
    requires Setting(modules, corrected, s0, x, y)
    requires var O, N := x.children.value.items, y.children.value.items;
             Cur(O, N, c) && Running(c) && Tracked(s0, x, y, s, c) && Handled(s0, O, N, c, s.elms)
    requires var m := Choose(c, y.children.value.items);
             m.StartStart? || m.EndEnd? || m.StartToEnd? || m.EndToStart? || m.MoveKeyed?
    ensures var O, N := x.children.value.items, y.children.value.items;
            Handled(s0, O, N, Advance(c, N), UpdateStep(modules, corrected, s, s0.elms[x.id], y, c).elms)
  {
    var O, N, e := x.children.value.items, y.children.value.items, s0.elms[x.id];
    var r := UpdateStep(modules, corrected, s, e, y, c);
    var k, j := RoundReuse(modules, corrected, s0, x, y, s, c);
    assert FromOld(s0, O, N[j].value, r.elms[N[j].value.id]);
    HandledApart(corrected, y, c, j);
    HandledStep(s0, O, N, c, Advance(c, N), s.elms, r.elms, Ids(N[j].value));
  }

  /** One round keeps the handled new children `Sourced`. */
  lemma RoundSourced(modules: seq<Module>, corrected: bool, s0: State, x: VNode, y: VNode, s: State, c: Cursors)
    requires Setting(modules, corrected, s0, x, y)
    requires var O, N := x.children.value.items, y.children.value.items;
             Cur(O, N, c) && Running(c) && Tracked(s0, x, y, s, c) && Handled(s0, O, N, c, s.elms)
    ensures var O, N := x.children.value.items, y.children.value.items;
            Handled(s0, O, N, Advance(c, N), UpdateStep(modules, corrected, s, s0.elms[x.id], y, c).elms)
  {
    var O, N, e := x.children.value.items, y.children.value.items, s0.elms[x.id];
    var m := Choose(c, N);
    if m.SkipOldStart? || m.SkipOldEnd? || m.SkipNewStart? || m.SkipNewEnd? {
      SkipSourced(s0, O, N, c, s.elms);
      assert UpdateStep(modules, corrected, s, e, y, c) == s;
    } else if m.CreateNew? {
      CreateSourced(modules, corrected, s0, O, y, s, e, c);
    } else {
      PatchSourced(modules, corrected, s0, x, y, s, c);
    }
  }

  /** The clean-up after the loop keeps every handled new child's node and
      gives the new children left new nodes. */
  lemma FinishSourced(modules: seq<Module>, corrected: bool, s0: State, x: VNode, y: VNode, s: State, c: Cursors)
    requires Setting(modules, corrected, s0, x, y)
    requires var O, N := x.children.value.items, y.children.value.items;
             Cur(O, N, c) && !Running(c) && Tracked(s0, x, y, s, c) && Ordered(s0, x, y, s, c)
             && Handled(s0, O, N, c, s.elms)
    ensures var O, N := x.children.value.items, y.children.value.items;
            Reused(s0, O, N, Finish(modules, corrected, s, s0.elms[x.id], y, c).elms)
  {
    var O, N, e := x.children.value.items, y.children.value.items, s0.elms[x.id];
    if c.os > c.oe && c.ns <= c.ne {
      RefHead(corrected, y, s, c);
      LeftItems(corrected, y, c);
      ListedEmpty(s.elms, N, c);
      var ref := Reference(corrected, s, N, c.ne);
      AddLeft(modules, s, e, N, c, LiveElms(s.elms, N[0..c.ns]), LiveElms(s.elms, N[c.ne + 1..|N|]), ref);
      FinishIsAdd(modules, corrected, s, e, y, c);
      OutsideSlice(N, c);
      var r := AddVnodes(modules, s, e, ref, N, c.ns, c.ne);
      forall j | 0 <= j < |N| && N[j].Some? ensures Sourced(s0, O, N[j].value, r.elms) {
        if !InNew(c, j) {
          assert Sourced(s0, O, N[j].value, s.elms);
        }
      }
    } else if c.os <= c.oe {
      FinishIsRemove(modules, corrected, s, e, y, c);
      RemoveVnodesValid(modules, s, e, c.oldCh, c.os, c.oe);
    }
  }

  /** The loop from the variables `c` on, and the clean-up after it,
      leave every new child `Sourced`. */
  lemma LoopSourced(modules: seq<Module>, corrected: bool, s0: State, x: VNode, y: VNode, s: State, c: Cursors)
    requires Setting(modules, corrected, s0, x, y)
    requires var O, N := x.children.value.items, y.children.value.items;
             Cur(O, N, c) && Tracked(s0, x, y, s, c) && Ordered(s0, x, y, s, c) && Handled(s0, O, N, c, s.elms)
    ensures var O, N := x.children.value.items, y.children.value.items;
            Reused(s0, O, N, UpdateLoop(modules, corrected, s, s0.elms[x.id], y, c).elms)
    decreases Measure(c) + 2
  {
    var N, e := y.children.value.items, s0.elms[x.id];
    if Running(c) {
      StepOrder(modules, corrected, s0, x, y, s, c);
      RoundSourced(modules, corrected, s0, x, y, s, c);
      LoopSourced(modules, corrected, s0, x, y, UpdateStep(modules, corrected, s, e, y, c), Advance(c, N));
    } else {
      FinishSourced(modules, corrected, s0, x, y, s, c);
    }
  }

  /** A node is listed for every live slot that has one. */
  lemma {:induction false} LiveElmsHas(E: map<VId, HostId>, items: seq<Option<VNode>>, i: int)
    requires 0 <= i < |items| && items[i].Some? && items[i].value.id in E
    ensures E[items[i].value.id] in LiveElms(E, items)
  {
    if i > 0 {
      LiveElmsHas(E, items[1..], i - 1);
      assert items[1..][i - 1] == items[i];
    }
  }

  /** A list of nodes without repeats gives distinct slots distinct nodes. */
  lemma {:induction false} LiveElmsApart(E: map<VId, HostId>, items: seq<Option<VNode>>, i: int, i': int)
    requires NoDup(LiveElms(E, items))
    requires 0 <= i < i' < |items| && items[i].Some? && items[i'].Some?
    requires items[i].value.id in E && items[i'].value.id in E
    ensures E[items[i].value.id] != E[items[i'].value.id]
  {
    var L, T := LiveElms(E, items), LiveElms(E, items[1..]);
    assert L == (if items[0].Some? && items[0].value.id in E then [E[items[0].value.id]] else []) + T;
    if i == 0 {
      LiveElmsHas(E, items[1..], i' - 1);
      assert items[1..][i' - 1] == items[i'];
      var t :| 0 <= t < |T| && T[t] == E[items[i'].value.id];
      assert L[0] == E[items[0].value.id] && L[t + 1] == T[t];
    } else {
      assert forall a, b :: 0 <= a < b < |T| ==> T[a] == L[|L| - |T| + a] && T[b] == L[|L| - |T| + b];
      LiveElmsApart(E, items[1..], i - 1, i' - 1);
      assert items[1..][i - 1] == items[i] && items[1..][i' - 1] == items[i'];
    }
  }

  /** `updateChildren(elm, oldCh, newCh)` on an element that mirrors the
      old children gives every new child a node that is either new or the
      node of an old child `sameVnode` pairs it with, keyed or not; no
      node, old or new, goes to two new children. */
  lemma UpdateChildrenReuse(modules: seq<Module>, corrected: bool, s: State, x: VNode, y: VNode)
    requires Ready(modules, corrected, s, x, y) && x.children.Some? && y.children.Some?
    ensures var O, N, r := x.children.value.items, y.children.value.items,
                           UpdateChildren(modules, corrected, s, s.elms[x.id], x.children.value.items, y);
            && Reused(s, O, N, r.elms)
            && (forall j, j' :: 0 <= j < j' < |N| && N[j].Some? && N[j'].Some? ==>
                  N[j].value.id in r.elms && N[j'].value.id in r.elms && r.elms[N[j].value.id] != r.elms[N[j'].value.id])
  {
    var O, N := x.children.value.items, y.children.value.items;
    var r := UpdateChildren(modules, corrected, s, s.elms[x.id], O, y);
    ReadyFacts(modules, corrected, s, x, y);
    TrackedStart(modules, corrected, s, x, y);
    LoopSourced(modules, corrected, s, x, y, s, Start(O, N));
    UpdateChildrenOrder(modules, corrected, s, x, y);
    forall j, j' | 0 <= j < j' < |N| && N[j].Some? && N[j'].Some?
      ensures N[j].value.id in r.elms && N[j'].value.id in r.elms && r.elms[N[j].value.id] != r.elms[N[j'].value.id]
    {
      LiveElmsApart(r.elms, N, j, j');
    }
  }
}
