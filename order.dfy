/** The outcome of `patchVnode` and `updateChildren`
    (src/package/init.ts:226-375) on a host that mirrors the old tree: the
    parent's list ends as the host nodes of the new children in order,
    every new child paired with an old one by `sameVnode` on a key takes
    the old one's node, and nothing outside the old tree's host nodes and
    new nodes changes. The proof follows the recursion of the reconciler:
    a child patch inside a loop round is the same theorem one level down. */
module ChildOrder {
  import opened Wrappers
  import opened VNodes
  import opened HostTree
  import opened Hooks
  import opened Events
  import opened Trees
  import opened States
  import opened KeyMaps
  import opened Creation
  import opened Removal
  import opened Diff
  import opened DiffFrame
  import opened Windows
  import opened Moves
  import opened Placement
  import opened Adding
  import opened Tracking
  import opened ContentCases

  /** The loop is tracked and ordered after the round at `c`. */
  ghost predicate Stepped(modules: seq<Module>, corrected: bool, s0: State, x: VNode, y: VNode, s: State, c: Cursors)
    requires x.children.Some? && y.children.Some? && x.id in s0.elms
  {
    var O, N := x.children.value.items, y.children.value.items;
    var c1, s1 := Advance(c, N), UpdateStep(modules, corrected, s, s0.elms[x.id], y, c);
    Cur(O, N, c1) && Tracked(s0, x, y, s1, c1) && Ordered(s0, x, y, s1, c1)
  }

  /** `insertBefore` hands out no id. */
  lemma InsertBeforeNext(h: Host, p: HostId, n: HostId, ref: Option<HostId>)
    ensures InsertBefore(h, p, n, ref).next == h.next
  {
  }

  /** The old slot and new slot a patching round pairs, and how the
      round moves the cursors. */
  lemma MatchFacts(O: seq<Option<VNode>>, N: seq<Option<VNode>>, c: Cursors) returns (k: int, j: int)
    requires Cur(O, N, c) && Running(c)
    requires var m := Choose(c, N); m.StartStart? || m.EndEnd? || m.StartToEnd? || m.EndToStart? || m.MoveKeyed?
    ensures var m := Choose(c, N);
            && k == (if m.StartStart? || m.StartToEnd? then c.os else if m.EndEnd? || m.EndToStart? then c.oe else m.idx)
            && j == (if m.EndEnd? || m.StartToEnd? then c.ne else c.ns)
    ensures 0 <= c.os <= c.oe < |c.oldCh| && 0 <= c.ns <= c.ne < |N|
    ensures c.oldStart == c.oldCh[c.os] && c.oldEnd == c.oldCh[c.oe] && c.oldStart.Some? && c.oldEnd.Some?
    ensures LiveIn(c, c.os) && LiveIn(c, c.oe) && c.oldCh[c.os] == O[c.os] && c.oldCh[c.oe] == O[c.oe]
    ensures LiveIn(c, k) && c.oldCh[k] == O[k] && InNew(c, j) && 0 <= j < |N| && N[j].Some?
    ensures SameVnode(O[k].value, N[j].value) && SlotAt(N, j) == N[j] && SlotAt(c.oldCh, k) == O[k]
    ensures var c1 := Advance(c, N);
            && !LiveIn(c1, k) && (forall k' :: LiveIn(c1, k') ==> LiveIn(c, k'))
            && !InNew(c1, j) && (forall j' :: InNew(c1, j') <==> InNew(c, j') && j' != j)
    ensures var m, c1 := Choose(c, N), Advance(c, N);
            && (m.StartStart? ==> c1.os == c.os + 1 && c1.oe == c.oe && c1.ns == c.ns + 1 && c1.ne == c.ne && c1.oldCh == c.oldCh)
            && (m.EndEnd? ==> c1.os == c.os && c1.oe == c.oe - 1 && c1.ns == c.ns && c1.ne == c.ne - 1 && c1.oldCh == c.oldCh)
            && (m.StartToEnd? ==> c.os < c.oe && c1.os == c.os + 1 && c1.oe == c.oe && c1.ns == c.ns && c1.ne == c.ne - 1 && c1.oldCh == c.oldCh)
            && (m.EndToStart? ==> c.os < c.oe && c1.os == c.os && c1.oe == c.oe - 1 && c1.ns == c.ns + 1 && c1.ne == c.ne && c1.oldCh == c.oldCh)
            && (m.MoveKeyed? ==> c.os < m.idx < c.oe && c1.os == c.os && c1.oe == c.oe && c1.ns == c.ns + 1 && c1.ne == c.ne
                                 && c1.oldCh == c.oldCh[m.idx := None])
  {
    var m := Choose(c, N);
    if m.StartStart? {
      k, j := c.os, c.ns;
    } else if m.EndEnd? {
      k, j := c.oe, c.ne;
    } else if m.StartToEnd? {
      k, j := c.os, c.ne;
      CrossedApart(O, N, c);
    } else if m.EndToStart? {
      k, j := c.oe, c.ns;
      CrossedApart(O, N, c);
    } else {
      k, j := m.idx, c.ns;
      KeyedInside(O, N, c);
    }
  }

  /** The facts of a round that creates the new start. */
  lemma CreateFacts(O: seq<Option<VNode>>, N: seq<Option<VNode>>, c: Cursors)
    requires Cur(O, N, c) && Running(c) && Choose(c, N).CreateNew?
    ensures 0 <= c.os <= c.oe < |c.oldCh| && 0 <= c.ns <= c.ne < |N|
    ensures c.oldStart == c.oldCh[c.os] && c.oldStart.Some? && LiveIn(c, c.os) && c.oldCh[c.os] == O[c.os]
    ensures InNew(c, c.ns) && N[c.ns].Some? && SlotAt(N, c.ns) == N[c.ns]
    ensures forall k :: !Pair(O, N, k, c.ns)
    ensures var c1 := Advance(c, N);
            && c1.os == c.os && c1.oe == c.oe && c1.ns == c.ns + 1 && c1.ne == c.ne && c1.oldCh == c.oldCh
            && (forall k' :: LiveIn(c1, k') ==> LiveIn(c, k'))
            && !InNew(c1, c.ns) && (forall j' :: InNew(c1, j') <==> InNew(c, j') && j' != c.ns)
  {
    KeyedFoundAll(O, N, c);
  }

  /** The old child `k` in the window and the new child `j` are ready to
      be patched: the host still mirrors the old child as it was. */
  lemma ChildReady(modules: seq<Module>, corrected: bool, s0: State, x: VNode, y: VNode, s: State, c: Cursors, k: int, j: int)
    requires Setting(modules, corrected, s0, x, y)
    requires var O, N := x.children.value.items, y.children.value.items;
             Cur(O, N, c) && Tracked(s0, x, y, s, c)
    requires LiveIn(c, k) && c.oldCh[k] == x.children.value.items[k]
    requires 0 <= j < |y.children.value.items| && y.children.value.items[j].Some?
    ensures var O, N := x.children.value.items, y.children.value.items;
            && Ready(modules, corrected, s, O[k].value, N[j].value)
            && O[k].value.id in s0.elms && O[k].value.id in s.elms
            && s.elms[O[k].value.id] == s0.elms[O[k].value.id]
            && Foot(s.host, s.elms, O[k].value) == Foot(s0.host, s0.elms, O[k].value)
  {
    var O, N := x.children.value.items, y.children.value.items;
    assert WindowKept(s0, s, c.oldCh[k].value);
    assert OldChild(s0, x, O[k].value);
    assert NewChild(corrected, y, N[j].value);
    ContentIdsIn(y);
    WindowIds(s0, x, y, s, c, s.elms, {});
  }

  /** Patching the old child `k` into the new child `j` inside a round. */
  lemma ChildPatch(modules: seq<Module>, corrected: bool, s0: State, x: VNode, y: VNode, s: State, c: Cursors, k: int, j: int)
    requires Setting(modules, corrected, s0, x, y)
    requires var O, N := x.children.value.items, y.children.value.items;
             Cur(O, N, c) && Tracked(s0, x, y, s, c)
    requires LiveIn(c, k) && c.oldCh[k] == x.children.value.items[k]
    requires 0 <= j < |y.children.value.items| && y.children.value.items[j].Some?
    ensures x.children.value.items[k].value.id in s0.elms
    ensures var O, N := x.children.value.items, y.children.value.items;
            Patched(s0, x, y, s, PatchVnode(modules, corrected, s, O[k].value, N[j].value), k, j)
    decreases y, 0, 1
  {
    var O, N := x.children.value.items, y.children.value.items;
    ChildReady(modules, corrected, s0, x, y, s, c, k, j);
    PatchVnodeOrder(modules, corrected, s, O[k].value, N[j].value);
    PatchVnodeKeeps(modules, corrected, s, O[k].value, N[j].value);
    PatchVnodeElm(modules, corrected, s, O[k].value, N[j].value);
  }

  /** What a patching round leaves before any node moves: the old child
      `k` is patched into the new child `j` in `s1`, and the parent's list
      is as it was, read with the new fields. */
  ghost predicate PatchedRound(modules: seq<Module>, corrected: bool, s0: State, x: VNode, y: VNode, s: State, c: Cursors,
                               s1: State, k: int, j: int)
  {
    && Setting(modules, corrected, s0, x, y)
    && Cur(x.children.value.items, y.children.value.items, c) && Running(c) && Tracked(s0, x, y, s, c)
    && LiveIn(c, k) && k < |x.children.value.items| && c.oldCh[k] == x.children.value.items[k]
    && InNew(c, j) && 0 <= j < |y.children.value.items| && y.children.value.items[j].Some?
    && x.children.value.items[k].value.id in s0.elms
    && Patched(s0, x, y, s, s1, k, j)
    && s0.elms[x.id] in s1.host.kids && s1.host.kids[s0.elms[x.id]] == Listed(s1.elms, y.children.value.items, c)
    && (forall k' :: LiveIn(c, k') ==>
          c.oldCh[k'].value.id in s1.elms && s1.elms[c.oldCh[k'].value.id] == s0.elms[c.oldCh[k'].value.id])
  }

  /** Patching the children a round pairs leaves what `PatchedRound` says. */
  lemma RoundPatch(modules: seq<Module>, corrected: bool, s0: State, x: VNode, y: VNode, s: State, c: Cursors)
    returns (k: int, j: int)
    requires Setting(modules, corrected, s0, x, y)
    requires var O, N := x.children.value.items, y.children.value.items;
             Cur(O, N, c) && Running(c) && Tracked(s0, x, y, s, c) && Ordered(s0, x, y, s, c)
    requires var m := Choose(c, y.children.value.items);
             m.StartStart? || m.EndEnd? || m.StartToEnd? || m.EndToStart? || m.MoveKeyed?
    ensures var m := Choose(c, y.children.value.items);
            && k == (if m.StartStart? || m.StartToEnd? then c.os else if m.EndEnd? || m.EndToStart? then c.oe else m.idx)
            && j == (if m.EndEnd? || m.StartToEnd? then c.ne else c.ns)
    ensures 0 <= k < |x.children.value.items| && x.children.value.items[k].Some?
    ensures 0 <= j < |y.children.value.items| && y.children.value.items[j].Some?
    ensures var O, N := x.children.value.items, y.children.value.items;
            PatchedRound(modules, corrected, s0, x, y, s, c, PatchVnode(modules, corrected, s, O[k].value, N[j].value), k, j)
    decreases y, 0, 2
  {
    var O, N := x.children.value.items, y.children.value.items;
    k, j := MatchFacts(O, N, c);
    ChildPatch(modules, corrected, s0, x, y, s, c, k, j);
    PatchedStep(modules, corrected, s0, x, y, s, c, PatchVnode(modules, corrected, s, O[k].value, N[j].value), k, j);
  }

  /** After a start/start patch the loop is tracked and ordered. */
  lemma StartStartAfter(modules: seq<Module>, corrected: bool, s0: State, x: VNode, y: VNode, s: State, c: Cursors,
                        s1: State)
    requires Running(c) && y.children.Some? && Choose(c, y.children.value.items).StartStart?
    requires PatchedRound(modules, corrected, s0, x, y, s, c, s1, c.os, c.ns)
    ensures var O, N := x.children.value.items, y.children.value.items;
            var c1 := Advance(c, N);
            Cur(O, N, c1) && Tracked(s0, x, y, s1, c1) && Ordered(s0, x, y, s1, c1)
  {
    var O, N := x.children.value.items, y.children.value.items;
    var k, j := MatchFacts(O, N, c);
    var c1 := Advance(c, N);
    CurAdvance(O, N, c);
    ListStartStart(s1.elms, N, c, c1, s0.elms[O[k].value.id]);
    MovedDone(modules, corrected, s0, x, y, s, c, s1, c1, s1, k, j);
  }

  /** What a start/start or end/end round computes. */
  lemma MatchedStepIs(modules: seq<Module>, corrected: bool, s: State, p: HostId, y: VNode, c: Cursors)
    requires y.children.Some? && (Choose(c, y.children.value.items).StartStart? || Choose(c, y.children.value.items).EndEnd?)
    ensures var N := y.children.value.items;
            UpdateStep(modules, corrected, s, p, y, c) ==
              if Choose(c, N).StartStart? then PatchVnode(modules, corrected, s, c.oldStart.value, SlotAt(N, c.ns).value)
              else PatchVnode(modules, corrected, s, c.oldEnd.value, SlotAt(N, c.ne).value)
  {
  }

  /** A start/start round keeps the loop tracked and ordered. */
  lemma StartStartOrder(modules: seq<Module>, corrected: bool, s0: State, x: VNode, y: VNode, s: State, c: Cursors)
    requires Setting(modules, corrected, s0, x, y)
    requires var O, N := x.children.value.items, y.children.value.items;
             Cur(O, N, c) && Running(c) && Tracked(s0, x, y, s, c) && Ordered(s0, x, y, s, c)
    requires Choose(c, y.children.value.items).StartStart?
    ensures Stepped(modules, corrected, s0, x, y, s, c)
    decreases y, 0, 3
  {
    var O, N, e := x.children.value.items, y.children.value.items, s0.elms[x.id];
    var k, j := RoundPatch(modules, corrected, s0, x, y, s, c);
    var s1 := PatchVnode(modules, corrected, s, O[k].value, N[j].value);
    assert c.oldStart == O[k] && SlotAt(N, c.ns) == N[j];
    MatchedStepIs(modules, corrected, s, e, y, c);
    StartStartAfter(modules, corrected, s0, x, y, s, c, s1);
  }

  /** After an end/end patch the loop is tracked and ordered. */
  lemma EndEndAfter(modules: seq<Module>, corrected: bool, s0: State, x: VNode, y: VNode, s: State, c: Cursors,
                    s1: State)
    requires Running(c) && y.children.Some? && Choose(c, y.children.value.items).EndEnd?
    requires PatchedRound(modules, corrected, s0, x, y, s, c, s1, c.oe, c.ne)
    ensures var O, N := x.children.value.items, y.children.value.items;
            var c1 := Advance(c, N);
            Cur(O, N, c1) && Tracked(s0, x, y, s1, c1) && Ordered(s0, x, y, s1, c1)
  {
    var O, N := x.children.value.items, y.children.value.items;
    var k, j := MatchFacts(O, N, c);
    var c1 := Advance(c, N);
    CurAdvance(O, N, c);
    ListEndEnd(s1.elms, N, c, c1, s0.elms[O[k].value.id]);
    MovedDone(modules, corrected, s0, x, y, s, c, s1, c1, s1, k, j);
  }

  /** An end/end round keeps the loop tracked and ordered. */
  lemma EndEndOrder(modules: seq<Module>, corrected: bool, s0: State, x: VNode, y: VNode, s: State, c: Cursors)
    requires Setting(modules, corrected, s0, x, y)
    requires var O, N := x.children.value.items, y.children.value.items;
             Cur(O, N, c) && Running(c) && Tracked(s0, x, y, s, c) && Ordered(s0, x, y, s, c)
    requires Choose(c, y.children.value.items).EndEnd?
    ensures Stepped(modules, corrected, s0, x, y, s, c)
    decreases y, 0, 3
  {
    var O, N, e := x.children.value.items, y.children.value.items, s0.elms[x.id];
    var k, j := RoundPatch(modules, corrected, s0, x, y, s, c);
    var s1 := PatchVnode(modules, corrected, s, O[k].value, N[j].value);
    assert c.oldEnd == O[k] && SlotAt(N, c.ne) == N[j];
    MatchedStepIs(modules, corrected, s, e, y, c);
    EndEndAfter(modules, corrected, s0, x, y, s, c, s1);
  }

  /** After the old start is patched into the new end, moving its node
      before `ref`, the node after the old end's, keeps the loop tracked
      and ordered. */
  lemma StartToEndAfter(modules: seq<Module>, corrected: bool, s0: State, x: VNode, y: VNode, s: State, c: Cursors,
                        s1: State, ref: Option<HostId>)
    requires Running(c) && y.children.Some? && Choose(c, y.children.value.items).StartToEnd?
    requires PatchedRound(modules, corrected, s0, x, y, s, c, s1, c.os, c.ne)
    requires LiveIn(c, c.oe) && ref == NextSibling(s1.host, s1.elms[c.oldCh[c.oe].value.id])
    ensures var O, N, e := x.children.value.items, y.children.value.items, s0.elms[x.id];
            var c1, s2 := Advance(c, N), s1.(host := InsertBefore(s1.host, e, s1.elms[O[c.os].value.id], ref));
            Cur(O, N, c1) && Tracked(s0, x, y, s2, c1) && Ordered(s0, x, y, s2, c1)
  {
    var O, N, e := x.children.value.items, y.children.value.items, s0.elms[x.id];
    var k, j := MatchFacts(O, N, c);
    var c1 := Advance(c, N);
    CurAdvance(O, N, c);
    var a, b := s1.elms[O[c.os].value.id], s1.elms[O[c.oe].value.id];
    ListStartToEnd(s1.elms, N, c, c1, a, b);
    var P, M, S := LiveElms(s1.elms, N[0..c.ns]), LiveElms(s1.elms, c.oldCh[c.os + 1..c.oe]), LiveElms(s1.elms, N[c.ne + 1..|N|]);
    NextSiblingSplit(s1.host, e, P + [a] + M, b, S);
    MoveRight(s1.host, e, a, P, M + [b], S);
    var s2 := s1.(host := InsertBefore(s1.host, e, a, ref));
    MovedDone(modules, corrected, s0, x, y, s, c, s1, c1, s2, k, j);
  }

  /** The old start matching the new end is patched and moved right after
      the old end; the loop stays tracked and ordered. */
  lemma StartToEndOrder(modules: seq<Module>, corrected: bool, s0: State, x: VNode, y: VNode, s: State, c: Cursors)
    requires Setting(modules, corrected, s0, x, y)
    requires var O, N := x.children.value.items, y.children.value.items;
             Cur(O, N, c) && Running(c) && Tracked(s0, x, y, s, c) && Ordered(s0, x, y, s, c)
    requires Choose(c, y.children.value.items).StartToEnd?
    ensures Stepped(modules, corrected, s0, x, y, s, c)
    decreases y, 0, 3
  {
    var O, N, e := x.children.value.items, y.children.value.items, s0.elms[x.id];
    var k, j := RoundPatch(modules, corrected, s0, x, y, s, c);
    var s1 := PatchVnode(modules, corrected, s, O[k].value, N[j].value);
    assert LiveIn(c, c.oe) && c.oldCh[c.oe] == O[c.oe] && c.oldEnd == O[c.oe];
    var ref := NextSibling(s1.host, s1.elms[O[c.oe].value.id]);
    assert UpdateStep(modules, corrected, s, e, y, c) == s1.(host := InsertBefore(s1.host, e, s1.elms[O[c.os].value.id], ref));
    StartToEndAfter(modules, corrected, s0, x, y, s, c, s1, ref);
  }

  /** After the old end is patched into the new start, moving its node
      before the old start's keeps the loop tracked and ordered. */
  lemma EndToStartAfter(modules: seq<Module>, corrected: bool, s0: State, x: VNode, y: VNode, s: State, c: Cursors,
                        s1: State)
    requires Running(c) && y.children.Some? && Choose(c, y.children.value.items).EndToStart?
    requires PatchedRound(modules, corrected, s0, x, y, s, c, s1, c.oe, c.ns)
    requires LiveIn(c, c.os)
    ensures var O, N, e := x.children.value.items, y.children.value.items, s0.elms[x.id];
            var a, b := s1.elms[c.oldCh[c.os].value.id], s1.elms[c.oldCh[c.oe].value.id];
            var c1, s2 := Advance(c, N), s1.(host := InsertBefore(s1.host, e, b, Some(a)));
            Cur(O, N, c1) && Tracked(s0, x, y, s2, c1) && Ordered(s0, x, y, s2, c1)
  {
    var O, N, e := x.children.value.items, y.children.value.items, s0.elms[x.id];
    var k, j := MatchFacts(O, N, c);
    var c1 := Advance(c, N);
    CurAdvance(O, N, c);
    var a, b := s1.elms[O[c.os].value.id], s1.elms[O[c.oe].value.id];
    ListEndToStart(s1.elms, N, c, c1, a, b);
    var P, M, S := LiveElms(s1.elms, N[0..c.ns]), LiveElms(s1.elms, c.oldCh[c.os + 1..c.oe]), LiveElms(s1.elms, N[c.ne + 1..|N|]);
    MoveLeft(s1.host, e, b, P, [a] + M, S);
    assert ([a] + M)[0] == a;
    var s2 := s1.(host := InsertBefore(s1.host, e, b, Some(a)));
    MovedDone(modules, corrected, s0, x, y, s, c, s1, c1, s2, k, j);
  }

  /** The old end matching the new start is patched and moved before the
      old start; the loop stays tracked and ordered. */
  lemma EndToStartOrder(modules: seq<Module>, corrected: bool, s0: State, x: VNode, y: VNode, s: State, c: Cursors)
    requires Setting(modules, corrected, s0, x, y)
    requires var O, N := x.children.value.items, y.children.value.items;
             Cur(O, N, c) && Running(c) && Tracked(s0, x, y, s, c) && Ordered(s0, x, y, s, c)
    requires Choose(c, y.children.value.items).EndToStart?
    ensures Stepped(modules, corrected, s0, x, y, s, c)
    decreases y, 0, 3
  {
    var O, N, e := x.children.value.items, y.children.value.items, s0.elms[x.id];
    var k, j := RoundPatch(modules, corrected, s0, x, y, s, c);
    var s1 := PatchVnode(modules, corrected, s, O[k].value, N[j].value);
    assert LiveIn(c, c.os) && c.oldCh[c.os] == O[c.os] && c.oldStart == O[c.os];
    var a, b := s1.elms[c.oldCh[c.os].value.id], s1.elms[c.oldCh[c.oe].value.id];
    assert UpdateStep(modules, corrected, s, e, y, c) == s1.(host := InsertBefore(s1.host, e, b, Some(a)));
    EndToStartAfter(modules, corrected, s0, x, y, s, c, s1);
  }

  /** After the old child the key map finds is patched into the new
      start, moving its node before the old start's keeps the loop
      tracked and ordered. */
  lemma KeyedAfter(modules: seq<Module>, corrected: bool, s0: State, x: VNode, y: VNode, s: State, c: Cursors,
                   s1: State, k: int)
    requires Running(c) && y.children.Some? && Choose(c, y.children.value.items) == MoveKeyed(k)
    requires PatchedRound(modules, corrected, s0, x, y, s, c, s1, k, c.ns)
    requires LiveIn(c, c.os)
    ensures var O, N, e := x.children.value.items, y.children.value.items, s0.elms[x.id];
            var a, m := s1.elms[c.oldCh[c.os].value.id], s1.elms[c.oldCh[k].value.id];
            var c1, s2 := Advance(c, N), s1.(host := InsertBefore(s1.host, e, m, Some(a)));
            Cur(O, N, c1) && Tracked(s0, x, y, s2, c1) && Ordered(s0, x, y, s2, c1)
  {
    var O, N, e := x.children.value.items, y.children.value.items, s0.elms[x.id];
    var k', j := MatchFacts(O, N, c);
    var c1 := Advance(c, N);
    CurAdvance(O, N, c);
    var a, m := s1.elms[O[c.os].value.id], s1.elms[O[k].value.id];
    ListKeyed(s1.elms, N, c, c1, k, a, m);
    var P, L1, L2, S := LiveElms(s1.elms, N[0..c.ns]), LiveElms(s1.elms, c.oldCh[c.os + 1..k]),
                        LiveElms(s1.elms, c.oldCh[k + 1..c.oe + 1]), LiveElms(s1.elms, N[c.ne + 1..|N|]);
    MoveLeft(s1.host, e, m, P, [a] + L1, L2 + S);
    assert ([a] + L1)[0] == a;
    var s2 := s1.(host := InsertBefore(s1.host, e, m, Some(a)));
    MovedDone(modules, corrected, s0, x, y, s, c, s1, c1, s2, k, j);
  }

  /** What a keyed round computes, once the nodes are known. */
  lemma KeyedStepIs(modules: seq<Module>, corrected: bool, s: State, p: HostId, y: VNode, c: Cursors,
                    s1: State, k: int, a: HostId, m: HostId)
    requires y.children.Some? && Choose(c, y.children.value.items) == MoveKeyed(k)
    requires s1 == PatchVnode(modules, corrected, s, SlotAt(c.oldCh, k).value, SlotAt(y.children.value.items, c.ns).value)
    requires ElmOf(s1, SlotAt(c.oldCh, k).value) == Some(m) && ElmOf(s1, c.oldStart.value) == Some(a)
    ensures UpdateStep(modules, corrected, s, p, y, c) == s1.(host := InsertBefore(s1.host, p, m, Some(a)))
  {
  }

  /** The old child the key map finds is patched, its slot set to
      undefined and its node moved before the old start. */
  lemma KeyedOrder(modules: seq<Module>, corrected: bool, s0: State, x: VNode, y: VNode, s: State, c: Cursors)
    requires Setting(modules, corrected, s0, x, y)
    requires var O, N := x.children.value.items, y.children.value.items;
             Cur(O, N, c) && Running(c) && Tracked(s0, x, y, s, c) && Ordered(s0, x, y, s, c)
    requires Choose(c, y.children.value.items).MoveKeyed?
    ensures Stepped(modules, corrected, s0, x, y, s, c)
    decreases y, 0, 3
  {
    var O, N, e := x.children.value.items, y.children.value.items, s0.elms[x.id];
    var k, j := RoundPatch(modules, corrected, s0, x, y, s, c);
    var s1 := PatchVnode(modules, corrected, s, O[k].value, N[j].value);
    assert LiveIn(c, c.os) && c.oldCh[c.os] == O[c.os] && c.oldStart == O[c.os];
    var a, m := s1.elms[c.oldCh[c.os].value.id], s1.elms[c.oldCh[k].value.id];
    KeyedStepIs(modules, corrected, s, e, y, c, s1, k, a, m);
    KeyedAfter(modules, corrected, s0, x, y, s, c, s1, k);
  }

  /** Creating the new start: before it is inserted, the parent's list
      and the window's nodes are as they were. */
  lemma CreatedListed(modules: seq<Module>, corrected: bool, s0: State, x: VNode, y: VNode, s: State, c: Cursors, s1: State)
    requires Setting(modules, corrected, s0, x, y)
    requires var O, N := x.children.value.items, y.children.value.items;
             Cur(O, N, c) && Tracked(s0, x, y, s, c) && Ordered(s0, x, y, s, c)
    requires var N := y.children.value.items;
             InNew(c, c.ns) && 0 <= c.ns < |N| && N[c.ns].Some?
    requires Valid(s1.host) && s.host.next <= s1.host.next
    requires Outside(s.host, s1.host, Between(s.host.next, s1.host.next))
    requires KeptOutside(s.elms, s1.elms, Ids(y.children.value.items[c.ns].value))
    ensures var N, e := y.children.value.items, s0.elms[x.id];
            e in s1.host.kids && s1.host.kids[e] == Listed(s1.elms, N, c)
    ensures forall k :: LiveIn(c, k) ==>
              c.oldCh[k].value.id in s1.elms && s1.elms[c.oldCh[k].value.id] == s0.elms[c.oldCh[k].value.id]
  {
    var N, e := y.children.value.items, s0.elms[x.id];
    var I := Ids(N[c.ns].value);
    assert NewChild(corrected, y, N[c.ns].value);
    ContentIdsIn(y);
    WindowIds(s0, x, y, s, c, s1.elms, I);
    ProcessedIds(s0, x, y, s, c, I);
    ListedKept(s.elms, s1.elms, N, c, I);
  }

  /** The state after creating the new start in `s1` (node `n`) and
      inserting it before the old start's node `a` is tracked and ordered
      at the next variables. */
  lemma CreateStepDone(modules: seq<Module>, corrected: bool, s0: State, x: VNode, y: VNode, s: State, c: Cursors,
                       s1: State, n: HostId, a: HostId)
    requires Setting(modules, corrected, s0, x, y)
    requires var O, N := x.children.value.items, y.children.value.items;
             Cur(O, N, c) && Running(c) && Choose(c, N).CreateNew? && Tracked(s0, x, y, s, c) && Ordered(s0, x, y, s, c)
    requires var N := y.children.value.items;
             0 <= c.ns < |N| && N[c.ns].Some? && 0 <= c.os < |c.oldCh| && c.oldCh[c.os].Some?
    requires var N := y.children.value.items;
             && Valid(s1.host) && n == s.host.next < s1.host.next
             && n in s1.host.info && ParentNode(s1.host, n).None?
             && Outside(s.host, s1.host, Between(s.host.next, s1.host.next))
             && KeptOutside(s.elms, s1.elms, Ids(N[c.ns].value))
             && N[c.ns].value.id in s1.elms && s1.elms[N[c.ns].value.id] == n
             && c.oldCh[c.os].value.id in s1.elms && s1.elms[c.oldCh[c.os].value.id] == a
    requires var e := s0.elms[x.id];
             Keeps(s, s1.(host := InsertBefore(s1.host, e, n, Some(a))), Ids(y.children.value.items[c.ns].value))
    ensures var O, N, e := x.children.value.items, y.children.value.items, s0.elms[x.id];
            var c1, s2 := Advance(c, N), s1.(host := InsertBefore(s1.host, e, n, Some(a)));
            Cur(O, N, c1) && Tracked(s0, x, y, s2, c1) && Ordered(s0, x, y, s2, c1)
  {
    var O, N, e := x.children.value.items, y.children.value.items, s0.elms[x.id];
    CreateFacts(O, N, c);
    var c1 := Advance(c, N);
    CurAdvance(O, N, c);
    CreatedListed(modules, corrected, s0, x, y, s, c, s1);
    ListCreate(s1.elms, N, c, c1, a, n);
    var P, B := LiveElms(s1.elms, N[0..c.ns]), LiveElms(s1.elms, c.oldCh[c.os..c.oe + 1]) + LiveElms(s1.elms, N[c.ne + 1..|N|]);
    InsertBetween(s1.host, e, n, P, B);
    OutsideInsertBefore(s1.host, e, n, Some(a));
    InsertBeforeNext(s1.host, e, n, Some(a));
    var s2 := s1.(host := InsertBefore(s1.host, e, n, Some(a)));
    OutsideGrow(s.host, s1.host, s2.host, Between(s.host.next, s1.host.next), {e} + ParentSet(s1.host, n),
                {e} + Between(s.host.next, s2.host.next));
    CreatedDone(modules, corrected, s0, x, y, s, c, c1, s2);
  }

  /** What a creating round computes, once the old start's node is known. */
  lemma CreateStepIs(modules: seq<Module>, corrected: bool, s: State, p: HostId, y: VNode, c: Cursors,
                     v: VNode, s1: State, n: HostId, a: HostId)
    requires y.children.Some? && Choose(c, y.children.value.items).CreateNew?
    requires SlotAt(y.children.value.items, c.ns) == Some(v) && c.oldStart.Some?
    requires CreateElm(modules, s, v).0 == s1 && CreateElm(modules, s, v).1 == n
    requires c.oldStart.value.id in s1.elms && s1.elms[c.oldStart.value.id] == a
    ensures UpdateStep(modules, corrected, s, p, y, c) == s1.(host := InsertBefore(s1.host, p, n, Some(a)))
  {
  }

  /** A round that creates the new start and inserts it before the old
      start keeps the loop tracked and ordered. */
  lemma CreateOrder(modules: seq<Module>, corrected: bool, s0: State, x: VNode, y: VNode, s: State, c: Cursors)
    requires Setting(modules, corrected, s0, x, y)
    requires var O, N := x.children.value.items, y.children.value.items;
             Cur(O, N, c) && Running(c) && Tracked(s0, x, y, s, c) && Ordered(s0, x, y, s, c)
    requires Choose(c, y.children.value.items).CreateNew?
    ensures Stepped(modules, corrected, s0, x, y, s, c)
  {
    var O, N, e := x.children.value.items, y.children.value.items, s0.elms[x.id];
    CreateFacts(O, N, c);
    var v := N[c.ns].value;
    assert NewChild(corrected, y, v);
    CreatedRoot(modules, s, v);
    var made := CreateElm(modules, s, v);
    var s1, n := made.0, made.1;
    CreatedListed(modules, corrected, s0, x, y, s, c, s1);
    var a := s1.elms[O[c.os].value.id];
    CreateInsertKeeps(modules, s, e, v, Some(a));
    CreateStepIs(modules, corrected, s, e, y, c, v, s1, n, a);
    CreateStepDone(modules, corrected, s0, x, y, s, c, s1, n, a);
  }

  /** One round keeps the loop tracked and ordered. */
  lemma StepOrder(modules: seq<Module>, corrected: bool, s0: State, x: VNode, y: VNode, s: State, c: Cursors)
    requires Setting(modules, corrected, s0, x, y)
    requires var O, N := x.children.value.items, y.children.value.items;
             Cur(O, N, c) && Running(c) && Tracked(s0, x, y, s, c) && Ordered(s0, x, y, s, c)
    ensures Stepped(modules, corrected, s0, x, y, s, c)
    decreases y, 0, 4
  {
    var N, e := y.children.value.items, s0.elms[x.id];
    var m := Choose(c, N);
    if m.SkipOldStart? || m.SkipOldEnd? || m.SkipNewStart? || m.SkipNewEnd? {
      SkipDone(modules, corrected, s0, x, y, s, c);
      assert UpdateStep(modules, corrected, s, e, y, c) == s;
    } else if m.StartStart? {
      StartStartOrder(modules, corrected, s0, x, y, s, c);
    } else if m.EndEnd? {
      EndEndOrder(modules, corrected, s0, x, y, s, c);
    } else if m.StartToEnd? {
      StartToEndOrder(modules, corrected, s0, x, y, s, c);
    } else if m.EndToStart? {
      EndToStartOrder(modules, corrected, s0, x, y, s, c);
    } else if m.CreateNew? {
      CreateOrder(modules, corrected, s0, x, y, s, c);
    } else {
      KeyedOrder(modules, corrected, s0, x, y, s, c);
    }
  }

  /** A new child outside a run of siblings has no identity in the run. */
  lemma NotInSlice(N: seq<Option<VNode>>, lo: int, hi: int, j: int)
    requires 0 <= lo <= hi <= |N| && 0 <= j < |N| && (j < lo || hi <= j) && N[j].Some?
    requires forall i, i' :: 0 <= i < |N| && 0 <= i' < |N| && i != i' && N[i].Some? && N[i'].Some? ==>
               Ids(N[i].value) !! Ids(N[i'].value)
    ensures N[j].value.id !in IdsOf(N[lo..hi])
  {
    var t := N[lo..hi];
    forall i | 0 <= i < |t| && t[i].Some? ensures N[j].value.id !in Ids(t[i].value) {
      assert t[i] == N[lo + i];
    }
  }

  /** The reference node of the clean-up is the first node of the new
      children handled from the end: by definition when corrected, and as
      written because no slot is null there. */
  lemma RefHead(corrected: bool, y: VNode, s: State, c: Cursors)
    requires y.children.Some? && Siblings(corrected, y) && 0 <= c.ne + 1 <= |y.children.value.items|
    requires var N := y.children.value.items;
             forall j :: 0 <= j < |N| && !InNew(c, j) && N[j].Some? ==> N[j].value.id in s.elms
    ensures var N := y.children.value.items;
            var S := LiveElms(s.elms, N[c.ne + 1..|N|]);
            Reference(corrected, s, N, c.ne) == if S == [] then None else Some(S[0])
  {
    var N := y.children.value.items;
    if corrected {
      BeforeHead(s, N, c.ne);
    } else {
      if c.ne + 1 < |N| {
        assert N[c.ne + 1].Some? && !InNew(c, c.ne + 1);
      }
      AsWrittenHead(s, N, c.ne);
    }
  }

  /** The corrected reference is the first node of the children after
      `ne`. */
  lemma BeforeHead(s: State, N: seq<Option<VNode>>, ne: int)
    requires 0 <= ne + 1 <= |N|
    ensures var S := LiveElms(s.elms, N[ne + 1..|N|]);
            Before(s, N, ne) == if S == [] then None else Some(S[0])
  {
    assert N[ne + 1..] == N[ne + 1..|N|];
  }

  /** The reference as written is that node too when the slot after `ne`
      holds a child with a node. */
  lemma AsWrittenHead(s: State, N: seq<Option<VNode>>, ne: int)
    requires 0 <= ne + 1 <= |N|
    requires ne + 1 < |N| ==> N[ne + 1].Some? && N[ne + 1].value.id in s.elms
    ensures var S := LiveElms(s.elms, N[ne + 1..|N|]);
            BeforeAsWritten(s, N, ne) == if S == [] then None else Some(S[0])
  {
    if ne + 1 < |N| {
      LiveHead(s.elms, N, ne + 1, |N|, s.elms[N[ne + 1].value.id]);
    } else {
      assert N[ne + 1..|N|] == [];
    }
  }

  /** What `Done` asks, from a tracked state and the last change. */
  lemma DoneFrom(s0: State, x: VNode, y: VNode, s: State, c: Cursors, r: State)
    requires x.children.Some? && y.children.Some? && x.id in s0.elms && Apart(s0, x)
    requires Tracked(s0, x, y, s, c)
    requires var N, e := y.children.value.items, s0.elms[x.id];
             && Valid(r.host) && s.host.next <= r.host.next
             && Outside(s.host, r.host, {e} + Between(s.host.next, r.host.next))
             && Keeps(s, r, ContentIds(y))
             && e in r.host.kids && r.host.kids[e] == LiveElms(r.elms, N)
             && (forall j :: 0 <= j < |N| && N[j].Some? ==> N[j].value.id in r.elms)
    requires var O, N := x.children.value.items, y.children.value.items;
             forall k, j :: Pair(O, N, k, j) ==> N[j].value.id in r.elms && r.elms[N[j].value.id] == s0.elms[O[k].value.id]
    ensures Done(s0, x, y, r)
  {
    var e := s0.elms[x.id];
    var F := Foot(s0.host, s0.elms, x);
    OutsideGrow(s0.host, s.host, r.host, F + Between(s0.host.next, s.host.next), {e} + Between(s.host.next, r.host.next),
                F + Between(s0.host.next, r.host.next));
    KeepsTrans(s0, s, r, ContentIds(y), ContentIds(y), ContentIds(y));
  }

  /** The clean-up adds when only new children are left. */
  lemma FinishIsAdd(modules: seq<Module>, corrected: bool, s: State, p: HostId, v: VNode, c: Cursors)
    requires v.children.Some? && c.os > c.oe && c.ns <= c.ne
    ensures var N := v.children.value.items;
            Finish(modules, corrected, s, p, v, c) == AddVnodes(modules, s, p, Reference(corrected, s, N, c.ne), N, c.ns, c.ne)
  {
  }

  /** The clean-up removes when old children are left. */
  lemma FinishIsRemove(modules: seq<Module>, corrected: bool, s: State, p: HostId, v: VNode, c: Cursors)
    requires v.children.Some? && c.os <= c.oe
    ensures Finish(modules, corrected, s, p, v, c) == RemoveVnodes(modules, s, p, c.oldCh, c.os, c.oe)
  {
  }

  /** The new children left after the loop are disjoint trees with
      distinct identities. */
  lemma LeftItems(corrected: bool, y: VNode, c: Cursors)
    requires y.children.Some? && Siblings(corrected, y)
    ensures var N := y.children.value.items;
            && (forall j :: c.ns <= j <= c.ne && 0 <= j < |N| && N[j].Some? ==> DistinctIds(N[j].value))
            && (forall j, j' :: c.ns <= j < j' <= c.ne && 0 <= j && j' < |N| && N[j].Some? && N[j'].Some? ==>
                  Ids(N[j].value) !! Ids(N[j'].value))
  {
    var N := y.children.value.items;
    forall j | c.ns <= j <= c.ne && 0 <= j < |N| && N[j].Some? ensures DistinctIds(N[j].value) {
      assert NewChild(corrected, y, N[j].value);
    }
  }

  /** The new children outside `ns..ne` have no identity among theirs. */
  lemma OutsideSlice(N: seq<Option<VNode>>, c: Cursors)
    requires 0 <= c.ns <= c.ne < |N|
    requires forall j, j' :: 0 <= j < |N| && 0 <= j' < |N| && j != j' && N[j].Some? && N[j'].Some? ==>
               Ids(N[j].value) !! Ids(N[j'].value)
    ensures forall j :: 0 <= j < |N| && !InNew(c, j) && N[j].Some? ==> N[j].value.id !in IdsOf(N[c.ns..c.ne + 1])
  {
    forall j | 0 <= j < |N| && !InNew(c, j) && N[j].Some? ensures N[j].value.id !in IdsOf(N[c.ns..c.ne + 1]) {
      NotInSlice(N, c.ns, c.ne + 1, j);
    }
  }

  /** Adding the new children `ns..ne` changes no other new child's node,
      and the nodes of all of them are then in slot order. */
  lemma AddedList(E: map<VId, HostId>, E': map<VId, HostId>, N: seq<Option<VNode>>, c: Cursors)
    requires 0 <= c.ns <= c.ne < |N|
    requires forall j, j' :: 0 <= j < |N| && 0 <= j' < |N| && j != j' && N[j].Some? && N[j'].Some? ==>
               Ids(N[j].value) !! Ids(N[j'].value)
    requires forall j :: 0 <= j < |N| && !InNew(c, j) && N[j].Some? ==> N[j].value.id in E
    requires KeptOutside(E, E', IdsOf(N[c.ns..c.ne + 1]))
    requires forall j :: c.ns <= j <= c.ne && N[j].Some? ==> N[j].value.id in E'
    ensures LiveElms(E, N[0..c.ns]) + LiveElms(E', N[c.ns..c.ne + 1]) + LiveElms(E, N[c.ne + 1..|N|]) == LiveElms(E', N)
    ensures forall j :: 0 <= j < |N| && N[j].Some? ==> N[j].value.id in E'
    ensures forall j :: 0 <= j < |N| && !InNew(c, j) && N[j].Some? ==> E'[N[j].value.id] == E[N[j].value.id]
  {
    var I := IdsOf(N[c.ns..c.ne + 1]);
    OutsideSlice(N, c);
    SliceKept(E, E', N, 0, c.ns, I);
    SliceKept(E, E', N, c.ne + 1, |N|, I);
    ListedJoin(E', N, c.ns, c.ne + 1);
  }

  /** After adding the new children left over between the nodes handled
      from the start and those handled from the end, the job is done. */
  lemma AddedDone(modules: seq<Module>, corrected: bool, s0: State, x: VNode, y: VNode, s: State, c: Cursors, r: State)
    requires Setting(modules, corrected, s0, x, y)
    requires var O, N := x.children.value.items, y.children.value.items;
             Cur(O, N, c) && Tracked(s0, x, y, s, c) && Ordered(s0, x, y, s, c)
    requires c.os > c.oe && c.ns <= c.ne
    requires var N, e := y.children.value.items, s0.elms[x.id];
             var P, S := LiveElms(s.elms, N[0..c.ns]), LiveElms(s.elms, N[c.ne + 1..|N|]);
             && Valid(r.host) && s.host.next <= r.host.next && e in r.host.kids
             && Outside(s.host, r.host, {e} + Between(s.host.next, r.host.next))
             && KeptOutside(s.elms, r.elms, IdsOf(N[c.ns..c.ne + 1]))
             && (forall j :: c.ns <= j <= c.ne && N[j].Some? ==> N[j].value.id in r.elms)
             && r.host.kids[e] == P + LiveElms(r.elms, N[c.ns..c.ne + 1]) + S
             && Keeps(s, r, IdsOf(N))
    ensures Done(s0, x, y, r)
  {
    var O, N := x.children.value.items, y.children.value.items;
    AddedList(s.elms, r.elms, N, c);
    forall k, j | Pair(O, N, k, j) ensures N[j].value.id in r.elms && r.elms[N[j].value.id] == s0.elms[O[k].value.id] {
      assert !LiveIn(c, k);
    }
    DoneFrom(s0, x, y, s, c, r);
  }

  /** Adding the new children left over, before the first node `S`
      starts with, puts their nodes between `P` and `S`. */
  lemma AddLeft(modules: seq<Module>, s: State, e: HostId, N: seq<Option<VNode>>, c: Cursors,
                P: seq<HostId>, S: seq<HostId>, ref: Option<HostId>)
    requires 0 <= c.ns <= c.ne < |N|
    requires Valid(s.host) && e in s.host.kids && s.host.kids[e] == P + S
    requires ref == if S == [] then None else Some(S[0])
    requires forall j :: c.ns <= j <= c.ne && 0 <= j < |N| && N[j].Some? ==> DistinctIds(N[j].value)
    requires forall j, j' :: c.ns <= j < j' <= c.ne && 0 <= j && j' < |N| && N[j].Some? && N[j'].Some? ==>
               Ids(N[j].value) !! Ids(N[j'].value)
    ensures var r := AddVnodes(modules, s, e, ref, N, c.ns, c.ne);
            && Valid(r.host) && s.host.next <= r.host.next && e in r.host.kids
            && Outside(s.host, r.host, {e} + Between(s.host.next, r.host.next))
            && KeptOutside(s.elms, r.elms, IdsOf(N[c.ns..c.ne + 1]))
            && (forall j :: c.ns <= j <= c.ne && N[j].Some? ==> N[j].value.id in r.elms && r.elms[N[j].value.id] >= s.host.next)
            && r.host.kids[e] == P + LiveElms(r.elms, N[c.ns..c.ne + 1]) + S
  {
    AddVnodesBetween(modules, s, e, N, c.ns, c.ne, P, S);
  }

  /** The loop ended with new children left: they are added before the
      reference node, between those handled from the start and those
      handled from the end. */
  lemma FinishAdd(modules: seq<Module>, corrected: bool, s0: State, x: VNode, y: VNode, s: State, c: Cursors)
    requires Setting(modules, corrected, s0, x, y)
    requires var O, N := x.children.value.items, y.children.value.items;
             Cur(O, N, c) && Tracked(s0, x, y, s, c) && Ordered(s0, x, y, s, c)
    requires c.os > c.oe && c.ns <= c.ne
    ensures Done(s0, x, y, Finish(modules, corrected, s, s0.elms[x.id], y, c))
  {
    var N, e := y.children.value.items, s0.elms[x.id];
    RefHead(corrected, y, s, c);
    LeftItems(corrected, y, c);
    ListedEmpty(s.elms, N, c);
    AddLeft(modules, s, e, N, c, LiveElms(s.elms, N[0..c.ns]), LiveElms(s.elms, N[c.ne + 1..|N|]), Reference(corrected, s, N, c.ne));
    AddVnodesKeeps(modules, s, e, Reference(corrected, s, N, c.ne), N, c.ns, c.ne);
    FinishIsAdd(modules, corrected, s, e, y, c);
    AddedDone(modules, corrected, s0, x, y, s, c, AddVnodes(modules, s, e, Reference(corrected, s, N, c.ne), N, c.ns, c.ne));
  }

  /** The old children left in the window are in the state and remove
      synchronously. */
  lemma LeftRemovable(s0: State, x: VNode, y: VNode, s: State, c: Cursors)
    requires x.children.Some? && y.children.Some? && x.id in s0.elms && Apart(s0, x)
    requires Cur(x.children.value.items, y.children.value.items, c) && Tracked(s0, x, y, s, c)
    ensures forall j :: c.os <= j <= c.oe && 0 <= j < |c.oldCh| && c.oldCh[j].Some? ==>
              c.oldCh[j].value.id in s.elms && !RemovesLater(c.oldCh[j].value)
  {
    var O := x.children.value.items;
    forall j | c.os <= j <= c.oe && 0 <= j < |c.oldCh| && c.oldCh[j].Some?
      ensures c.oldCh[j].value.id in s.elms && !RemovesLater(c.oldCh[j].value)
    {
      assert LiveIn(c, j) && WindowKept(s0, s, c.oldCh[j].value);
      assert OldChild(s0, x, O[j].value);
    }
  }

  /** Removing the old children left over takes their nodes out of the
      parent's list and changes nothing else but the trace. */
  lemma RemoveLeft(modules: seq<Module>, s: State, e: HostId, N: seq<Option<VNode>>, c: Cursors)
    requires 0 <= c.ns <= c.ne + 1 <= |N| && 0 <= c.os <= c.oe < |c.oldCh|
    requires AllModulesSync(modules) && Valid(s.host) && e in s.host.kids && s.host.kids[e] == Listed(s.elms, N, c)
    requires forall j :: c.os <= j <= c.oe && 0 <= j < |c.oldCh| && c.oldCh[j].Some? ==>
               c.oldCh[j].value.id in s.elms && !RemovesLater(c.oldCh[j].value)
    ensures var P, S := LiveElms(s.elms, N[0..c.ns]), LiveElms(s.elms, N[c.ne + 1..|N|]);
            var r := RemoveVnodes(modules, s, e, c.oldCh, c.os, c.oe);
            && r.elms == s.elms && s.trace <= r.trace && r.texts == s.texts && Valid(r.host)
            && r.host == s.host.(kids := s.host.kids[e := P + S])
  {
    var P, S := LiveElms(s.elms, N[0..c.ns]), LiveElms(s.elms, N[c.ne + 1..|N|]);
    RemoveVnodesSync(modules, s, e, c.oldCh, c.os, c.oe, P, S);
    RemoveVnodesValid(modules, s, e, c.oldCh, c.os, c.oe);
  }

  /** After removing the old children left over, the job is done. */
  lemma RemovedDone(modules: seq<Module>, corrected: bool, s0: State, x: VNode, y: VNode, s: State, c: Cursors, r: State)
    requires Setting(modules, corrected, s0, x, y)
    requires var O, N := x.children.value.items, y.children.value.items;
             Cur(O, N, c) && Tracked(s0, x, y, s, c) && Ordered(s0, x, y, s, c)
    requires c.ns > c.ne
    requires var N, e := y.children.value.items, s0.elms[x.id];
             var P, S := LiveElms(s.elms, N[0..c.ns]), LiveElms(s.elms, N[c.ne + 1..|N|]);
             && r.elms == s.elms && s.trace <= r.trace && r.texts == s.texts && Valid(r.host)
             && r.host == s.host.(kids := s.host.kids[e := P + S])
    ensures Done(s0, x, y, r)
  {
    var N, e := y.children.value.items, s0.elms[x.id];
    ListedSplit(s.elms, N, c.ns);
    assert Outside(s.host, r.host, {e} + Between(s.host.next, r.host.next));
    DoneFrom(s0, x, y, s, c, r);
  }

  /** The loop ended with old children left: they are removed, and the
      list is the new children's nodes. */
  lemma FinishRemove(modules: seq<Module>, corrected: bool, s0: State, x: VNode, y: VNode, s: State, c: Cursors)
    requires Setting(modules, corrected, s0, x, y)
    requires var O, N := x.children.value.items, y.children.value.items;
             Cur(O, N, c) && Tracked(s0, x, y, s, c) && Ordered(s0, x, y, s, c)
    requires c.os <= c.oe && c.ns > c.ne
    ensures Done(s0, x, y, Finish(modules, corrected, s, s0.elms[x.id], y, c))
  {
    var N, e := y.children.value.items, s0.elms[x.id];
    LeftRemovable(s0, x, y, s, c);
    RemoveLeft(modules, s, e, N, c);
    FinishIsRemove(modules, corrected, s, e, y, c);
    RemovedDone(modules, corrected, s0, x, y, s, c, RemoveVnodes(modules, s, e, c.oldCh, c.os, c.oe));
  }

  /** With the old window empty the parent's list is the new children
      handled from either end. */
  lemma ListedEmpty(E: map<VId, HostId>, N: seq<Option<VNode>>, c: Cursors)
    requires 0 <= c.ns <= c.ne + 1 <= |N| && 0 <= c.os <= c.oe + 1 <= |c.oldCh| && c.os > c.oe
    ensures Listed(E, N, c) == LiveElms(E, N[0..c.ns]) + LiveElms(E, N[c.ne + 1..|N|])
  {
    assert c.oldCh[c.os..c.oe + 1] == [];
    var P, S := LiveElms(E, N[0..c.ns]), LiveElms(E, N[c.ne + 1..|N|]);
    assert Listed(E, N, c) == P + [] + S;
  }

  /** The nodes of the new children before `lo`, from `lo` to `hi` and
      from `hi` on make up the nodes of all of them. */
  lemma ListedJoin(E: map<VId, HostId>, N: seq<Option<VNode>>, lo: int, hi: int)
    requires 0 <= lo <= hi <= |N|
    ensures LiveElms(E, N[0..lo]) + LiveElms(E, N[lo..hi]) + LiveElms(E, N[hi..|N|]) == LiveElms(E, N)
  {
    LiveSplit(E, N, 0, lo, |N|);
    LiveSplit(E, N, lo, hi, |N|);
    assert N[0..|N|] == N;
  }

  /** The nodes of the new children before `mid` and from `mid` on make
      up the nodes of all of them. */
  lemma ListedSplit(E: map<VId, HostId>, N: seq<Option<VNode>>, mid: int)
    requires 0 <= mid <= |N|
    ensures LiveElms(E, N[0..mid]) + LiveElms(E, N[mid..|N|]) == LiveElms(E, N)
  {
    LiveSplit(E, N, 0, mid, |N|);
    assert N[0..|N|] == N;
  }

  /** With both windows empty the loop's state already does the job. */
  lemma NoneDone(modules: seq<Module>, corrected: bool, s0: State, x: VNode, y: VNode, s: State, c: Cursors)
    requires Setting(modules, corrected, s0, x, y)
    requires var O, N := x.children.value.items, y.children.value.items;
             Cur(O, N, c) && Tracked(s0, x, y, s, c) && Ordered(s0, x, y, s, c)
    requires c.os > c.oe && c.ns > c.ne
    ensures Done(s0, x, y, s)
  {
    var N := y.children.value.items;
    ListedEmpty(s.elms, N, c);
    ListedSplit(s.elms, N, c.ns);
  }

  /** The loop ended with both windows empty: nothing is left to do. */
  lemma FinishNone(modules: seq<Module>, corrected: bool, s0: State, x: VNode, y: VNode, s: State, c: Cursors)
    requires Setting(modules, corrected, s0, x, y)
    requires var O, N := x.children.value.items, y.children.value.items;
             Cur(O, N, c) && Tracked(s0, x, y, s, c) && Ordered(s0, x, y, s, c)
    requires c.os > c.oe && c.ns > c.ne
    ensures Done(s0, x, y, Finish(modules, corrected, s, s0.elms[x.id], y, c))
  {
    NoneDone(modules, corrected, s0, x, y, s, c);
    assert Finish(modules, corrected, s, s0.elms[x.id], y, c) == s;
  }

  /** The clean-up after the loop finishes the job. */
  lemma FinishOrder(modules: seq<Module>, corrected: bool, s0: State, x: VNode, y: VNode, s: State, c: Cursors)
    requires Setting(modules, corrected, s0, x, y)
    requires var O, N := x.children.value.items, y.children.value.items;
             Cur(O, N, c) && !Running(c) && Tracked(s0, x, y, s, c) && Ordered(s0, x, y, s, c)
    ensures Done(s0, x, y, Finish(modules, corrected, s, s0.elms[x.id], y, c))
  {
    if c.os > c.oe && c.ns <= c.ne {
      FinishAdd(modules, corrected, s0, x, y, s, c);
    } else if c.os <= c.oe {
      FinishRemove(modules, corrected, s0, x, y, s, c);
    } else {
      FinishNone(modules, corrected, s0, x, y, s, c);
    }
  }

  /** The loop from the variables `c` on, and the clean-up after it. */
  lemma LoopOrder(modules: seq<Module>, corrected: bool, s0: State, x: VNode, y: VNode, s: State, c: Cursors)
    requires Setting(modules, corrected, s0, x, y)
    requires var O, N := x.children.value.items, y.children.value.items;
             Cur(O, N, c) && Tracked(s0, x, y, s, c) && Ordered(s0, x, y, s, c)
    ensures Done(s0, x, y, UpdateLoop(modules, corrected, s, s0.elms[x.id], y, c))
    decreases y, 1, Measure(c) + 2
  {
    var N, e := y.children.value.items, s0.elms[x.id];
    if Running(c) {
      StepOrder(modules, corrected, s0, x, y, s, c);
      LoopOrder(modules, corrected, s0, x, y, UpdateStep(modules, corrected, s, e, y, c), Advance(c, N));
    } else {
      FinishOrder(modules, corrected, s0, x, y, s, c);
    }
  }

  /** `updateChildren(elm, oldCh, newCh)` on an element that mirrors the
      old children leaves its list as the host nodes of the new children,
      in order; every new child has its node, a keyed new child matched
      by `sameVnode` has its old partner's, and only the old children's
      host nodes, the element and new nodes change. */
  lemma UpdateChildrenOrder(modules: seq<Module>, corrected: bool, s: State, x: VNode, y: VNode)
    requires Ready(modules, corrected, s, x, y) && x.children.Some? && y.children.Some?
    ensures x.id in s.elms
    ensures Done(s, x, y, UpdateChildren(modules, corrected, s, s.elms[x.id], x.children.value.items, y))
    decreases y, 2, 0
  {
    ReadyFacts(modules, corrected, s, x, y);
    TrackedStart(modules, corrected, s, x, y);
    LoopOrder(modules, corrected, s, x, y, s, Start(x.children.value.items, y.children.value.items));
  }

  /** The text/children case analysis changes the host only inside the
      old tree's host nodes and in new nodes. */
  lemma PatchContentOrder(modules: seq<Module>, corrected: bool, s: State, x: VNode, y: VNode, e: HostId)
    requires Ready(modules, corrected, s, x, y) && x.id in s.elms && e == s.elms[x.id]
    ensures var r := PatchContent(modules, corrected, s, x, y, e);
            && s.host.next <= r.host.next
            && Outside(s.host, r.host, Foot(s.host, s.elms, x) + Between(s.host.next, r.host.next))
    decreases y, 3, 0
  {
    var oldText, text := TextOf(s.texts, x), TextOf(s.texts, y);
    if text.None? && x.children.Some? && y.children.Some? {
      if x.children.value.ref != y.children.value.ref {
        UpdateChildrenOrder(modules, corrected, s, x, y);
      }
    } else if text.None? && y.children.Some? {
      ContentAdd(modules, corrected, s, x, y, e);
    } else if text.None? && x.children.Some? {
      ContentRemove(modules, corrected, s, x, y, e);
    } else if text.None? {
      ContentClear(modules, corrected, s, x, y, e);
    } else if oldText != text {
      ContentText(modules, corrected, s, x, y, e);
    }
  }

  /** Writing `vnode.elm` leaves the old tree mirrored as it was. */
  lemma ReadyRenamed(modules: seq<Module>, corrected: bool, s: State, s3: State, x: VNode, y: VNode)
    requires Ready(modules, corrected, s, x, y) && x.id in s.elms
    requires s3.host == s.host && s3.texts == s.texts && s3.elms == s.elms[y.id := s.elms[x.id]]
    ensures Ready(modules, corrected, s3, x, y)
    ensures Foot(s3.host, s3.elms, x) == Foot(s.host, s.elms, x)
    ensures x.id in s3.elms && s3.elms[x.id] == s.elms[x.id]
  {
    assert y.id in Ids(y);
    MirrorsFrame(s.host, s3.host, s.elms, s3.elms, s.texts, s3.texts, x, [], {}, {y.id});
    SeparateFrame(s.host, s3.host, s.elms, s3.elms, x, {}, {y.id});
    FootFrame(s.host, s3.host, s.elms, s3.elms, x, {}, {y.id});
  }

  /** `patchVnode(x, y)` on a host that mirrors `x` changes the host only
      inside `x`'s host nodes and in new nodes. */
  lemma PatchVnodeOrder(modules: seq<Module>, corrected: bool, s: State, x: VNode, y: VNode)
    requires Ready(modules, corrected, s, x, y)
    ensures x.id in s.elms
    ensures var r := PatchVnode(modules, corrected, s, x, y);
            && s.host.next <= r.host.next
            && Outside(s.host, r.host, Foot(s.host, s.elms, x) + Between(s.host.next, r.host.next))
    decreases y, 4, 0
  {
    var e := s.elms[x.id];
    var s1 := s.(trace := s.trace + NodeEvents(y, PrepatchHook));
    assert x.id in Ids(x) && y.id in Ids(y);
    var s2 := s1.(elms := s1.elms[y.id := e]);
    var s3 := if y.data.Some? then s2.(trace := s2.trace + ModuleEvents(Defined(modules, Update), Update, y.id) + NodeEvents(y, UpdateHook)) else s2;
    ReadyRenamed(modules, corrected, s, s3, x, y);
    PatchContentOrder(modules, corrected, s3, x, y, e);
    var s4 := PatchContent(modules, corrected, s3, x, y, e);
    assert PatchVnode(modules, corrected, s, x, y) == s4.(trace := s4.trace + NodeEvents(y, PostpatchHook));
  }
}
