/** What holds of the host and of the reconciler's state at the top of
    each round of the `updateChildren` loop (src/package/init.ts:226-316)
    when it patches the mirrored children of `x` into those of `y`: the
    list of the parent element is the host nodes of the new children
    handled from the start, then those of the old window, then those of
    the new children handled from the end; every new child handled has
    its `elm`, a keyed child paired with an old one has the old one's; and
    the old children still in the window are untouched. */
module Tracking {
  import opened Wrappers
  import opened VNodes
  import opened HostTree
  import opened Hooks
  import opened Trees
  import opened States
  import opened KeyMaps
  import opened Creation
  import opened Removal
  import opened Diff
  import opened DiffFrame
  import opened Windows

  /** No remove hook anywhere in `v` keeps `rm` for later, so removing
      `v` takes its host node out at once. */
  ghost predicate RemovesNow(v: VNode)
    decreases v
  {
    && !RemovesLater(v)
    && (v.children.Some? ==>
          forall i :: 0 <= i < |v.children.value.items| && v.children.value.items[i].Some? ==>
            RemovesNow(v.children.value.items[i].value))
  }

  /** No children array anywhere in `v` has a null slot. */
  ghost predicate Dense(v: VNode)
    decreases v
  {
    v.children.Some? ==>
      forall i :: 0 <= i < |v.children.value.items| ==>
        v.children.value.items[i].Some? && Dense(v.children.value.items[i].value)
  }

  /** What `patchVnode(x, y)` is proved under: the host is consistent and
      mirrors the old tree `x`, whose sibling subtrees occupy disjoint host
      nodes; both trees have unique sibling keys; the new tree shares no
      vnode object with the old one and none with itself; removals take
      effect at once; and, for the reference node as written, no children
      array of the new tree has a null slot. */
  ghost predicate Ready(modules: seq<Module>, corrected: bool, s: State, x: VNode, y: VNode)
  {
    && AllModulesSync(modules)
    && Valid(s.host) && Mirrors(s.host, s.elms, s.texts, x, []) && Separate(s.host, s.elms, x)
    && WellFormed(x) && WellKeyed(x) && RemovesNow(x)
    && DistinctIds(y) && WellKeyed(y) && (corrected || Dense(y))
    && Ids(x) !! Ids(y)
  }

  /** What an old child `v` of `x` brings along, read in the state `s0`
      the loop started from. */
  ghost predicate OldChild(s0: State, x: VNode, v: VNode)
    requires x.id in s0.elms
  {
    && v.id in s0.elms && Ids(v) <= Ids(x)
    && Foot(s0.host, s0.elms, v) <= Foot(s0.host, s0.elms, x)
    && s0.elms[x.id] !in Foot(s0.host, s0.elms, v)
    && (forall n :: n in Foot(s0.host, s0.elms, v) ==> n < s0.host.next)
    && WellFormed(v) && WellKeyed(v) && RemovesNow(v)
  }

  /** The old children occupy disjoint parts of `x`'s footprint. */
  ghost predicate Apart(s0: State, x: VNode)
    requires x.children.Some? && x.id in s0.elms
  {
    var O := x.children.value.items;
    && s0.elms[x.id] in Foot(s0.host, s0.elms, x)
    && (forall k :: 0 <= k < |O| && O[k].Some? ==> OldChild(s0, x, O[k].value))
    && (forall k, k' :: 0 <= k < |O| && 0 <= k' < |O| && k != k' && O[k].Some? && O[k'].Some? ==>
          Foot(s0.host, s0.elms, O[k].value) !! Foot(s0.host, s0.elms, O[k'].value))
  }

  /** What a new child `v` of `y` brings along. */
  ghost predicate NewChild(corrected: bool, y: VNode, v: VNode)
  {
    && Ids(v) <= ContentIds(y) && DistinctIds(v) && WellKeyed(v) && (corrected || Dense(v))
  }

  /** The new children are disjoint trees; as written, none is null. */
  ghost predicate Siblings(corrected: bool, y: VNode)
    requires y.children.Some?
  {
    var N := y.children.value.items;
    && (forall j :: 0 <= j < |N| && N[j].Some? ==> NewChild(corrected, y, N[j].value))
    && (forall j, j' :: 0 <= j < |N| && 0 <= j' < |N| && j != j' && N[j].Some? && N[j'].Some? ==>
          Ids(N[j].value) !! Ids(N[j'].value))
    && (!corrected ==> forall j :: 0 <= j < |N| ==> N[j].Some?)
  }

  /** An old child still in the window is as it was when the loop began. */
  ghost predicate WindowKept(s0: State, s: State, v: VNode)
  {
    && Mirrors(s.host, s.elms, s.texts, v, []) && Separate(s.host, s.elms, v)
    && Foot(s.host, s.elms, v) == Foot(s0.host, s0.elms, v)
  }

  /** The loop's state `s` at the variables `c`, measured against the
      state `s0` it started from. */
  ghost predicate Tracked(s0: State, x: VNode, y: VNode, s: State, c: Cursors)
    requires x.children.Some? && y.children.Some? && x.id in s0.elms
  {
    var O, N, e := x.children.value.items, y.children.value.items, s0.elms[x.id];
    && Valid(s.host) && s0.host.next <= s.host.next && e in s.host.kids
    && Keeps(s0, s, ContentIds(y))
    && Outside(s0.host, s.host, Foot(s0.host, s0.elms, x) + Between(s0.host.next, s.host.next))
    && (forall j :: 0 <= j < |N| && !InNew(c, j) && N[j].Some? ==> N[j].value.id in s.elms)
    && (forall k :: LiveIn(c, k) ==> WindowKept(s0, s, c.oldCh[k].value))
    && (forall k, j :: Pair(O, N, k, j) && !InNew(c, j) ==>
          O[k].value.id in s0.elms && N[j].value.id in s.elms && s.elms[N[j].value.id] == s0.elms[O[k].value.id])
  }

  /** The parent's list during the loop: the new children handled from
      the start, the old window, the new children handled from the end. */
  function Listed(E: map<VId, HostId>, N: seq<Option<VNode>>, c: Cursors): seq<HostId>
    requires 0 <= c.ns <= c.ne + 1 <= |N| && 0 <= c.os <= c.oe + 1 <= |c.oldCh|
  {
    LiveElms(E, N[0..c.ns]) + LiveElms(E, c.oldCh[c.os..c.oe + 1]) + LiveElms(E, N[c.ne + 1..|N|])
  }

  /** The parent's list is `Listed`. */
  ghost predicate Ordered(s0: State, x: VNode, y: VNode, s: State, c: Cursors)
    requires y.children.Some? && x.id in s0.elms
  {
    var N, e := y.children.value.items, s0.elms[x.id];
    && 0 <= c.ns <= c.ne + 1 <= |N| && 0 <= c.os <= c.oe + 1 <= |c.oldCh|
    && e in s.host.kids && s.host.kids[e] == Listed(s.elms, N, c)
  }

  /** The facts `Ready` gives about the two children arrays. */
  lemma ReadyFacts(modules: seq<Module>, corrected: bool, s0: State, x: VNode, y: VNode)
    requires Ready(modules, corrected, s0, x, y) && x.children.Some? && y.children.Some?
    ensures x.id in s0.elms && IsElement(x)
    ensures Apart(s0, x) && Siblings(corrected, y)
    ensures UniqueKeys(x.children.value.items) && UniqueKeys(y.children.value.items)
    ensures var e := s0.elms[x.id]; e in s0.host.kids && s0.host.kids[e] == LiveElms(s0.elms, x.children.value.items)
  {
    var O, N := x.children.value.items, y.children.value.items;
    var F := Foot(s0.host, s0.elms, x);
    FootBelow(s0.host, s0.elms, s0.texts, x, []);
    forall k | 0 <= k < |O| && O[k].Some? ensures OldChild(s0, x, O[k].value) {
      assert Mirrors(s0.host, s0.elms, s0.texts, O[k].value, []);
      FootChild(s0.host, s0.elms, x, k);
      IdsChild(x, k);
    }
    forall k, k' | 0 <= k < |O| && 0 <= k' < |O| && k != k' && O[k].Some? && O[k'].Some?
      ensures Foot(s0.host, s0.elms, O[k].value) !! Foot(s0.host, s0.elms, O[k'].value)
    {
      if k' < k {
        assert Foot(s0.host, s0.elms, O[k'].value) !! Foot(s0.host, s0.elms, O[k].value);
      }
    }
    forall j | 0 <= j < |N| && N[j].Some? ensures NewChild(corrected, y, N[j].value) {
    }
    forall j, j' | 0 <= j < |N| && 0 <= j' < |N| && j != j' && N[j].Some? && N[j'].Some?
      ensures Ids(N[j].value) !! Ids(N[j'].value)
    {
      if j' < j {
        assert Ids(N[j'].value) !! Ids(N[j].value);
      }
    }
    assert [] + LiveElms(s0.elms, O) == LiveElms(s0.elms, O);
  }

  /** The loop starts tracked and ordered. */
  lemma TrackedStart(modules: seq<Module>, corrected: bool, s0: State, x: VNode, y: VNode)
    requires Ready(modules, corrected, s0, x, y) && x.children.Some? && y.children.Some?
    ensures x.id in s0.elms
    ensures var c := Start(x.children.value.items, y.children.value.items);
            Cur(x.children.value.items, y.children.value.items, c)
            && Tracked(s0, x, y, s0, c) && Ordered(s0, x, y, s0, c)
  {
    var O, N := x.children.value.items, y.children.value.items;
    ReadyFacts(modules, corrected, s0, x, y);
    CurStart(O, N);
    StartTracked(modules, corrected, s0, x, y);
    StartOrdered(modules, corrected, s0, x, y);
  }

  /** The loop starts tracked: nothing has changed yet. */
  lemma StartTracked(modules: seq<Module>, corrected: bool, s0: State, x: VNode, y: VNode)
    requires Ready(modules, corrected, s0, x, y) && x.children.Some? && y.children.Some?
    requires x.id in s0.elms && s0.elms[x.id] in s0.host.kids
    requires Cur(x.children.value.items, y.children.value.items, Start(x.children.value.items, y.children.value.items))
    ensures Tracked(s0, x, y, s0, Start(x.children.value.items, y.children.value.items))
  {
    var O, N := x.children.value.items, y.children.value.items;
    var c := Start(O, N);
    forall k | LiveIn(c, k) ensures WindowKept(s0, s0, c.oldCh[k].value) {
      assert c.oldCh[k] == O[k];
    }
  }

  /** The loop starts ordered: the parent's list is the old children's. */
  lemma StartOrdered(modules: seq<Module>, corrected: bool, s0: State, x: VNode, y: VNode)
    requires x.children.Some? && y.children.Some? && x.id in s0.elms
    requires var e := s0.elms[x.id]; e in s0.host.kids && s0.host.kids[e] == LiveElms(s0.elms, x.children.value.items)
    ensures Ordered(s0, x, y, s0, Start(x.children.value.items, y.children.value.items))
  {
    var O, N := x.children.value.items, y.children.value.items;
    assert N[0..0] == [] && O[0..|O|] == O && N[|N|..|N|] == [];
  }

  /** A state change that touches only the host nodes `H` of old children
      that leave the window, the parent element and new nodes, and only
      the fields of vnodes in `I` among the new children being handled,
      keeps the loop tracked. */
  lemma TrackedStep(s0: State, x: VNode, y: VNode, s: State, c: Cursors,
                    s1: State, c1: Cursors, H: set<HostId>, I: set<VId>)
    requires x.children.Some? && y.children.Some? && x.id in s0.elms
    requires Apart(s0, x) && Ids(x) !! Ids(y)
    requires var O := x.children.value.items;
             && |c.oldCh| == |O| && |c1.oldCh| == |O|
             && (forall k :: 0 <= k < |O| && c.oldCh[k].Some? ==> c.oldCh[k] == O[k])
             && (forall k :: 0 <= k < |O| && c1.oldCh[k].Some? ==> c1.oldCh[k] == O[k])
    requires Tracked(s0, x, y, s, c)
    requires forall k :: LiveIn(c1, k) ==> LiveIn(c, k)
    requires forall j :: InNew(c1, j) ==> InNew(c, j)
    requires H <= Foot(s0.host, s0.elms, x)
    requires forall k :: LiveIn(c1, k) ==> Foot(s0.host, s0.elms, c.oldCh[k].value) !! H
    requires var e := s0.elms[x.id];
             && Valid(s1.host) && s.host.next <= s1.host.next && e in s1.host.kids
             && Outside(s.host, s1.host, H + {e} + Between(s.host.next, s1.host.next))
    requires Keeps(s, s1, I) && I <= ContentIds(y)
    requires var N := y.children.value.items;
             forall j :: 0 <= j < |N| && !InNew(c, j) && N[j].Some? ==> Ids(N[j].value) !! I
    requires var N := y.children.value.items;
             forall j :: 0 <= j < |N| && InNew(c, j) && !InNew(c1, j) && N[j].Some? ==> N[j].value.id in s1.elms
    requires var O, N := x.children.value.items, y.children.value.items;
             forall k, j :: Pair(O, N, k, j) && InNew(c, j) && !InNew(c1, j) ==>
               O[k].value.id in s0.elms && N[j].value.id in s1.elms && s1.elms[N[j].value.id] == s0.elms[O[k].value.id]
    ensures Tracked(s0, x, y, s1, c1)
  {
    var O, N, e := x.children.value.items, y.children.value.items, s0.elms[x.id];
    var F := Foot(s0.host, s0.elms, x);
    var changed := H + {e} + Between(s.host.next, s1.host.next);
    KeepsTrans(s0, s, s1, ContentIds(y), I, ContentIds(y));
    OutsideGrow(s0.host, s.host, s1.host, F + Between(s0.host.next, s.host.next), changed,
                F + Between(s0.host.next, s1.host.next));
    WindowsStep(s0, x, y, s, c, s1, c1, H, I);
    ProcessedStep(s0.elms, s.elms, s1.elms, O, N, c, c1, I);
  }

  /** The old children still in the window stay as they were through
      `TrackedStep`. */
  lemma WindowsStep(s0: State, x: VNode, y: VNode, s: State, c: Cursors, s1: State, c1: Cursors, H: set<HostId>, I: set<VId>)
    requires x.children.Some? && x.id in s0.elms && Apart(s0, x) && Ids(x) !! Ids(y)
    requires var O := x.children.value.items;
             && |c.oldCh| == |O| && |c1.oldCh| == |O|
             && (forall k :: 0 <= k < |O| && c.oldCh[k].Some? ==> c.oldCh[k] == O[k])
             && (forall k :: 0 <= k < |O| && c1.oldCh[k].Some? ==> c1.oldCh[k] == O[k])
    requires forall k :: LiveIn(c, k) ==> WindowKept(s0, s, c.oldCh[k].value)
    requires forall k :: LiveIn(c1, k) ==> LiveIn(c, k) && Foot(s0.host, s0.elms, c.oldCh[k].value) !! H
    requires s0.host.next <= s.host.next <= s1.host.next
    requires Outside(s.host, s1.host, H + {s0.elms[x.id]} + Between(s.host.next, s1.host.next))
    requires Keeps(s, s1, I) && I <= ContentIds(y)
    ensures forall k :: LiveIn(c1, k) ==> WindowKept(s0, s1, c1.oldCh[k].value)
  {
    var O := x.children.value.items;
    forall k | LiveIn(c1, k) ensures WindowKept(s0, s1, c1.oldCh[k].value) {
      assert c.oldCh[k] == O[k] && c1.oldCh[k] == O[k];
      assert OldChild(s0, x, O[k].value);
      WindowStep(s0, x, y, s, s1, O[k].value, H, I);
    }
  }

  /** The new children handled so far keep their nodes through
      `TrackedStep`, and those it handles get theirs. */
  lemma ProcessedStep(E0: map<VId, HostId>, E: map<VId, HostId>, E1: map<VId, HostId>,
                      O: seq<Option<VNode>>, N: seq<Option<VNode>>, c: Cursors, c1: Cursors, I: set<VId>)
    requires forall j :: 0 <= j < |N| && !InNew(c, j) && N[j].Some? ==> N[j].value.id in E
    requires forall k, j :: Pair(O, N, k, j) && !InNew(c, j) ==>
               O[k].value.id in E0 && N[j].value.id in E && E[N[j].value.id] == E0[O[k].value.id]
    requires forall j :: InNew(c1, j) ==> InNew(c, j)
    requires KeptOutside(E, E1, I)
    requires forall j :: 0 <= j < |N| && !InNew(c, j) && N[j].Some? ==> Ids(N[j].value) !! I
    requires forall j :: 0 <= j < |N| && InNew(c, j) && !InNew(c1, j) && N[j].Some? ==> N[j].value.id in E1
    requires forall k, j :: Pair(O, N, k, j) && InNew(c, j) && !InNew(c1, j) ==>
               O[k].value.id in E0 && N[j].value.id in E1 && E1[N[j].value.id] == E0[O[k].value.id]
    ensures forall j :: 0 <= j < |N| && !InNew(c1, j) && N[j].Some? ==> N[j].value.id in E1
    ensures forall k, j :: Pair(O, N, k, j) && !InNew(c1, j) ==>
              O[k].value.id in E0 && N[j].value.id in E1 && E1[N[j].value.id] == E0[O[k].value.id]
  {
    forall j | 0 <= j < |N| && !InNew(c1, j) && N[j].Some? ensures N[j].value.id in E1 {
      if !InNew(c, j) {
        assert N[j].value.id in Ids(N[j].value);
      }
    }
    forall k, j | Pair(O, N, k, j) && !InNew(c1, j)
      ensures O[k].value.id in E0 && N[j].value.id in E1 && E1[N[j].value.id] == E0[O[k].value.id]
    {
      if !InNew(c, j) {
        assert N[j].value.id in Ids(N[j].value);
      }
    }
  }

  /** One old child that stays in the window through `TrackedStep`. */
  lemma WindowStep(s0: State, x: VNode, y: VNode, s: State, s1: State, v: VNode, H: set<HostId>, I: set<VId>)
    requires x.id in s0.elms && Ids(x) !! Ids(y)
    requires OldChild(s0, x, v) && WindowKept(s0, s, v) && Foot(s0.host, s0.elms, v) !! H
    requires s0.host.next <= s.host.next <= s1.host.next
    requires Outside(s.host, s1.host, H + {s0.elms[x.id]} + Between(s.host.next, s1.host.next))
    requires Keeps(s, s1, I) && I <= ContentIds(y)
    ensures WindowKept(s0, s1, v)
  {
    var changed := H + {s0.elms[x.id]} + Between(s.host.next, s1.host.next);
    assert Foot(s.host, s.elms, v) !! changed;
    ContentIdsIn(y);
    assert Ids(v) !! I;
    MirrorsFrame(s.host, s1.host, s.elms, s1.elms, s.texts, s1.texts, v, [], changed, I);
    SeparateFrame(s.host, s1.host, s.elms, s1.elms, v, changed, I);
    FootFrame(s.host, s1.host, s.elms, s1.elms, v, changed, I);
  }

  /** What the loop over the children of `x` and `y` is proved under,
      read in the state `s0` it starts from. */
  ghost predicate Setting(modules: seq<Module>, corrected: bool, s0: State, x: VNode, y: VNode)
  {
    && AllModulesSync(modules)
    && x.children.Some? && y.children.Some? && x.id in s0.elms && IsElement(x)
    && Apart(s0, x) && Siblings(corrected, y)
    && UniqueKeys(x.children.value.items) && UniqueKeys(y.children.value.items)
    && Ids(x) !! Ids(y)
  }

  /** What patching the old child `k` into the new child `j` did, from
      the state `s` to `s1`: only the old child's host nodes and new nodes
      changed, only the new child's tree had fields written, and the new
      child took the old child's host node. */
  ghost predicate Patched(s0: State, x: VNode, y: VNode, s: State, s1: State, k: int, j: int)
    requires x.children.Some? && y.children.Some?
    requires 0 <= k < |x.children.value.items| && x.children.value.items[k].Some?
    requires 0 <= j < |y.children.value.items| && y.children.value.items[j].Some?
    requires x.children.value.items[k].value.id in s0.elms
  {
    var O, N := x.children.value.items, y.children.value.items;
    && Valid(s1.host) && s.host.next <= s1.host.next
    && Outside(s.host, s1.host, Foot(s0.host, s0.elms, O[k].value) + Between(s.host.next, s1.host.next))
    && Keeps(s, s1, Ids(N[j].value))
    && N[j].value.id in s1.elms && s1.elms[N[j].value.id] == s0.elms[O[k].value.id]
  }

  /** The outcome of `updateChildren` on the children of `x` and `y`,
      started in `s0`: the host changed only inside `x`'s footprint and in
      new nodes; only the new children's trees had fields written; the
      parent's list is the host nodes of the new children in order; every
      new child has its node; and a keyed new child with a matching old
      one has the old one's node. */
  ghost predicate Done(s0: State, x: VNode, y: VNode, r: State)
    requires x.children.Some? && y.children.Some? && x.id in s0.elms
  {
    var O, N, e := x.children.value.items, y.children.value.items, s0.elms[x.id];
    && Valid(r.host) && s0.host.next <= r.host.next
    && Outside(s0.host, r.host, Foot(s0.host, s0.elms, x) + Between(s0.host.next, r.host.next))
    && Keeps(s0, r, ContentIds(y))
    && e in r.host.kids && r.host.kids[e] == LiveElms(r.elms, N)
    && (forall j :: 0 <= j < |N| && N[j].Some? ==> N[j].value.id in r.elms)
    && (forall k, j :: Pair(O, N, k, j) ==>
          O[k].value.id in s0.elms && N[j].value.id in r.elms && r.elms[N[j].value.id] == s0.elms[O[k].value.id])
  }

  /** A slice splits into two at any point between its ends. */
  lemma LiveSplit(E: map<VId, HostId>, s: seq<Option<VNode>>, lo: int, mid: int, hi: int)
    requires 0 <= lo <= mid <= hi <= |s|
    ensures LiveElms(E, s[lo..hi]) == LiveElms(E, s[lo..mid]) + LiveElms(E, s[mid..hi])
  {
    assert s[lo..hi] == s[lo..mid] + s[mid..hi];
    LiveElmsAppend(E, s[lo..mid], s[mid..hi]);
  }

  /** One live slot with a node contributes that node. */
  lemma LiveSlot(E: map<VId, HostId>, s: seq<Option<VNode>>, k: int, n: HostId)
    requires 0 <= k < |s| && s[k].Some? && s[k].value.id in E && E[s[k].value.id] == n
    ensures LiveElms(E, s[k..k + 1]) == [n]
  {
    assert s[k..k + 1] == [s[k]];
    LiveElmsOne(E, s[k]);
  }

  /** A null slot contributes nothing. */
  lemma NullSlot(E: map<VId, HostId>, s: seq<Option<VNode>>, k: int)
    requires 0 <= k < |s| && s[k].None?
    ensures LiveElms(E, s[k..k + 1]) == []
  {
    assert s[k..k + 1] == [s[k]];
    LiveElmsOne(E, s[k]);
  }

  /** The old children in the window keep their vnode fields while only
      the new children's fields change. */
  lemma WindowIds(s0: State, x: VNode, y: VNode, s: State, c: Cursors, E: map<VId, HostId>, I: set<VId>)
    requires x.children.Some? && y.children.Some? && x.id in s0.elms
    requires Apart(s0, x) && Ids(x) !! Ids(y)
    requires var O, N := x.children.value.items, y.children.value.items;
             Cur(O, N, c) && Tracked(s0, x, y, s, c)
    requires KeptOutside(s.elms, E, I) && I <= Ids(y)
    ensures forall k :: LiveIn(c, k) ==>
              && c.oldCh[k].value.id in s.elms && c.oldCh[k].value.id !in I && c.oldCh[k].value.id in s0.elms
              && c.oldCh[k].value.id in E && E[c.oldCh[k].value.id] == s0.elms[c.oldCh[k].value.id]
  {
    var O := x.children.value.items;
    forall k | LiveIn(c, k)
      ensures c.oldCh[k].value.id in s.elms && c.oldCh[k].value.id !in I && c.oldCh[k].value.id in s0.elms
      ensures c.oldCh[k].value.id in E && E[c.oldCh[k].value.id] == s0.elms[c.oldCh[k].value.id]
    {
      assert c.oldCh[k] == O[k];
      assert OldChild(s0, x, O[k].value);
      assert WindowKept(s0, s, O[k].value);
      assert O[k].value.id in Ids(O[k].value);
      ContentIdsIn(y);
    }
  }

  /** A slice's list depends only on the fields of the vnodes in it. */
  lemma SliceKept(E: map<VId, HostId>, E': map<VId, HostId>, s: seq<Option<VNode>>, lo: int, hi: int, I: set<VId>)
    requires 0 <= lo <= hi <= |s| && KeptOutside(E, E', I)
    requires forall k :: lo <= k < hi && s[k].Some? ==> s[k].value.id in E && s[k].value.id !in I
    ensures LiveElms(E', s[lo..hi]) == LiveElms(E, s[lo..hi])
  {
    var t := s[lo..hi];
    forall i | 0 <= i < |t| && t[i].Some? ensures t[i].value.id in E && t[i].value.id !in I {
      assert t[i] == s[lo + i];
    }
    LiveElmsKept(E, E', t, I);
  }

  /** The list `Listed` names depends only on the fields of the vnodes
      it lists. */
  lemma ListedKept(E0: map<VId, HostId>, E: map<VId, HostId>, N: seq<Option<VNode>>, c: Cursors, I: set<VId>)
    requires 0 <= c.ns <= c.ne + 1 <= |N| && 0 <= c.os <= c.oe + 1 <= |c.oldCh|
    requires KeptOutside(E0, E, I)
    requires forall j :: 0 <= j < |N| && !InNew(c, j) && N[j].Some? ==> N[j].value.id in E0 && N[j].value.id !in I
    requires forall k :: LiveIn(c, k) ==> c.oldCh[k].value.id in E0 && c.oldCh[k].value.id !in I
    ensures Listed(E, N, c) == Listed(E0, N, c)
  {
    SliceKept(E0, E, N, 0, c.ns, I);
    SliceKept(E0, E, c.oldCh, c.os, c.oe + 1, I);
    SliceKept(E0, E, N, c.ne + 1, |N|, I);
  }

  /** The new children handled so far have their nodes, outside `I`. */
  lemma ProcessedIds(s0: State, x: VNode, y: VNode, s: State, c: Cursors, I: set<VId>)
    requires x.children.Some? && y.children.Some? && x.id in s0.elms
    requires Tracked(s0, x, y, s, c)
    requires var N := y.children.value.items;
             forall j :: 0 <= j < |N| && !InNew(c, j) && N[j].Some? ==> Ids(N[j].value) !! I
    ensures var N := y.children.value.items;
            forall j :: 0 <= j < |N| && !InNew(c, j) && N[j].Some? ==> N[j].value.id in s.elms && N[j].value.id !in I
  {
    var N := y.children.value.items;
    forall j | 0 <= j < |N| && !InNew(c, j) && N[j].Some?
      ensures N[j].value.id in s.elms && N[j].value.id !in I
    {
      assert N[j].value.id in Ids(N[j].value);
    }
  }

  /** With unique keys, a match by key is found by the map lookup. */
  lemma KeyedFoundAll(O: seq<Option<VNode>>, N: seq<Option<VNode>>, c: Cursors)
    requires Cur(O, N, c) && Running(c)
    requires var m := Choose(c, N); m.CreateNew? || m.MoveKeyed?
    ensures forall k :: Pair(O, N, k, c.ns) ==> Choose(c, N) == MoveKeyed(k)
  {
    forall k | Pair(O, N, k, c.ns) ensures Choose(c, N) == MoveKeyed(k) {
      KeyedFound(O, N, c, k);
    }
  }

  /** A crossed match needs two distinct old vnodes in the window: with
      one, the start/start or end/end test matches first. */
  lemma CrossedApart(O: seq<Option<VNode>>, N: seq<Option<VNode>>, c: Cursors)
    requires Cur(O, N, c) && Running(c)
    requires var m := Choose(c, N); m.StartToEnd? || m.EndToStart?
    ensures c.os < c.oe
  {
  }

  /** Start/start: the old start's node, first in the window, becomes the
      last of the prefix. */
  lemma ListStartStart(E: map<VId, HostId>, N: seq<Option<VNode>>, c: Cursors, c1: Cursors, a: HostId)
    requires 0 <= c.os <= c.oe < |c.oldCh| && 0 <= c.ns <= c.ne < |N|
    requires c1.os == c.os + 1 && c1.oe == c.oe && c1.ns == c.ns + 1 && c1.ne == c.ne && c1.oldCh == c.oldCh
    requires c.oldCh[c.os].Some? && c.oldCh[c.os].value.id in E && E[c.oldCh[c.os].value.id] == a
    requires N[c.ns].Some? && N[c.ns].value.id in E && E[N[c.ns].value.id] == a
    ensures Listed(E, N, c1) == Listed(E, N, c)
  {
    LiveSplit(E, N, 0, c.ns, c.ns + 1);
    LiveSlot(E, N, c.ns, a);
    LiveSplit(E, c.oldCh, c.os, c.os + 1, c.oe + 1);
    LiveSlot(E, c.oldCh, c.os, a);
  }

  /** End/end: the old end's node, last in the window, becomes the first
      of the suffix. */
  lemma ListEndEnd(E: map<VId, HostId>, N: seq<Option<VNode>>, c: Cursors, c1: Cursors, b: HostId)
    requires 0 <= c.os <= c.oe < |c.oldCh| && 0 <= c.ns <= c.ne < |N|
    requires c1.os == c.os && c1.oe == c.oe - 1 && c1.ns == c.ns && c1.ne == c.ne - 1 && c1.oldCh == c.oldCh
    requires c.oldCh[c.oe].Some? && c.oldCh[c.oe].value.id in E && E[c.oldCh[c.oe].value.id] == b
    requires N[c.ne].Some? && N[c.ne].value.id in E && E[N[c.ne].value.id] == b
    ensures Listed(E, N, c1) == Listed(E, N, c)
  {
    LiveSplit(E, N, c.ne, c.ne + 1, |N|);
    LiveSlot(E, N, c.ne, b);
    LiveSplit(E, c.oldCh, c.os, c.oe, c.oe + 1);
    LiveSlot(E, c.oldCh, c.oe, b);
  }

  /** A slice whose first slot has the node `a` starts with `a`. */
  lemma LiveHead(E: map<VId, HostId>, s: seq<Option<VNode>>, lo: int, hi: int, a: HostId)
    requires 0 <= lo < hi <= |s| && s[lo].Some? && s[lo].value.id in E && E[s[lo].value.id] == a
    ensures LiveElms(E, s[lo..hi]) == [a] + LiveElms(E, s[lo + 1..hi])
  {
    LiveSplit(E, s, lo, lo + 1, hi);
    LiveSlot(E, s, lo, a);
  }

  /** A slice whose last slot has the node `b` ends with `b`. */
  lemma LiveTail(E: map<VId, HostId>, s: seq<Option<VNode>>, lo: int, hi: int, b: HostId)
    requires 0 <= lo < hi <= |s| && s[hi - 1].Some? && s[hi - 1].value.id in E && E[s[hi - 1].value.id] == b
    ensures LiveElms(E, s[lo..hi]) == LiveElms(E, s[lo..hi - 1]) + [b]
  {
    LiveSplit(E, s, lo, hi - 1, hi);
    LiveSlot(E, s, hi - 1, b);
  }

  lemma Regroup(P: seq<HostId>, W: seq<HostId>, S: seq<HostId>, W1: seq<HostId>, T: seq<HostId>,
                a: HostId, M: seq<HostId>, b: HostId)
    requires W == [a] + W1 && W1 == M + [b] && T == [a] + S
    ensures P + W + S == P + [a] + (M + [b]) + S
    ensures P + W + S == (P + [a] + M) + [b] + S
    ensures P + W1 + T == P + (M + [b]) + [a] + S
  {
  }

  /** Old start to new end: the node `a` moves from the head of the window
      to just after its last node `b`, where the suffix begins. */
  lemma ListStartToEnd(E: map<VId, HostId>, N: seq<Option<VNode>>, c: Cursors, c1: Cursors, a: HostId, b: HostId)
    requires 0 <= c.os < c.oe < |c.oldCh| && 0 <= c.ns <= c.ne < |N|
    requires c1.os == c.os + 1 && c1.oe == c.oe && c1.ns == c.ns && c1.ne == c.ne - 1 && c1.oldCh == c.oldCh
    requires c.oldCh[c.os].Some? && c.oldCh[c.os].value.id in E && E[c.oldCh[c.os].value.id] == a
    requires c.oldCh[c.oe].Some? && c.oldCh[c.oe].value.id in E && E[c.oldCh[c.oe].value.id] == b
    requires N[c.ne].Some? && N[c.ne].value.id in E && E[N[c.ne].value.id] == a
    ensures var P, M, S := LiveElms(E, N[0..c.ns]), LiveElms(E, c.oldCh[c.os + 1..c.oe]), LiveElms(E, N[c.ne + 1..|N|]);
            && Listed(E, N, c) == P + [a] + (M + [b]) + S
            && Listed(E, N, c) == (P + [a] + M) + [b] + S
            && Listed(E, N, c1) == P + (M + [b]) + [a] + S
  {
    LiveHead(E, c.oldCh, c.os, c.oe + 1, a);
    LiveTail(E, c.oldCh, c.os + 1, c.oe + 1, b);
    LiveHead(E, N, c.ne, |N|, a);
    Regroup(LiveElms(E, N[0..c.ns]), LiveElms(E, c.oldCh[c.os..c.oe + 1]), LiveElms(E, N[c.ne + 1..|N|]),
            LiveElms(E, c.oldCh[c.os + 1..c.oe + 1]), LiveElms(E, N[c.ne..|N|]), a, LiveElms(E, c.oldCh[c.os + 1..c.oe]), b);
  }

  lemma RegroupLeft(P: seq<HostId>, W: seq<HostId>, S: seq<HostId>, W1: seq<HostId>, P1: seq<HostId>,
                    a: HostId, M: seq<HostId>, b: HostId)
    requires W == W1 + [b] && W1 == [a] + M && P1 == P + [b]
    ensures P + W + S == P + ([a] + M) + [b] + S
    ensures P1 + W1 + S == P + [b] + ([a] + M) + S
  {
  }

  /** Old end to new start: the node `b` moves from the end of the window
      to just before its first node `a`, where the prefix ends. */
  lemma ListEndToStart(E: map<VId, HostId>, N: seq<Option<VNode>>, c: Cursors, c1: Cursors, a: HostId, b: HostId)
    requires 0 <= c.os < c.oe < |c.oldCh| && 0 <= c.ns <= c.ne < |N|
    requires c1.os == c.os && c1.oe == c.oe - 1 && c1.ns == c.ns + 1 && c1.ne == c.ne && c1.oldCh == c.oldCh
    requires c.oldCh[c.os].Some? && c.oldCh[c.os].value.id in E && E[c.oldCh[c.os].value.id] == a
    requires c.oldCh[c.oe].Some? && c.oldCh[c.oe].value.id in E && E[c.oldCh[c.oe].value.id] == b
    requires N[c.ns].Some? && N[c.ns].value.id in E && E[N[c.ns].value.id] == b
    ensures var P, M, S := LiveElms(E, N[0..c.ns]), LiveElms(E, c.oldCh[c.os + 1..c.oe]), LiveElms(E, N[c.ne + 1..|N|]);
            && Listed(E, N, c) == P + ([a] + M) + [b] + S
            && Listed(E, N, c1) == P + [b] + ([a] + M) + S
  {
    LiveTail(E, c.oldCh, c.os, c.oe + 1, b);
    LiveHead(E, c.oldCh, c.os, c.oe, a);
    LiveTail(E, N, 0, c.ns + 1, b);
    RegroupLeft(LiveElms(E, N[0..c.ns]), LiveElms(E, c.oldCh[c.os..c.oe + 1]), LiveElms(E, N[c.ne + 1..|N|]),
                LiveElms(E, c.oldCh[c.os..c.oe]), LiveElms(E, N[0..c.ns + 1]), a, LiveElms(E, c.oldCh[c.os + 1..c.oe]), b);
  }

  lemma RegroupKeyed(P: seq<HostId>, W: seq<HostId>, S: seq<HostId>, W1: seq<HostId>, P1: seq<HostId>,
                     a: HostId, L1: seq<HostId>, m: HostId, L2: seq<HostId>)
    requires W == [a] + L1 + ([m] + L2) && W1 == [a] + L1 + L2 && P1 == P + [m]
    ensures P + W + S == P + ([a] + L1) + [m] + (L2 + S)
    ensures P1 + W1 + S == P + [m] + ([a] + L1) + (L2 + S)
  {
  }

  /** The window after a keyed move: the slot it leaves is null. */
  lemma NulledWindow(E: map<VId, HostId>, oldCh: seq<Option<VNode>>, os: int, idx: int, oe: int)
    requires 0 <= os < idx < oe < |oldCh|
    ensures LiveElms(E, oldCh[idx := None][os..oe + 1]) == LiveElms(E, oldCh[os..idx]) + LiveElms(E, oldCh[idx + 1..oe + 1])
  {
    var old1 := oldCh[idx := None];
    assert old1[os..idx] == oldCh[os..idx];
    assert old1[idx + 1..oe + 1] == oldCh[idx + 1..oe + 1];
    var B := LiveElms(E, oldCh[idx + 1..oe + 1]);
    LiveSplit(E, old1, idx, idx + 1, oe + 1);
    NullSlot(E, old1, idx);
    assert LiveElms(E, old1[idx..oe + 1]) == [] + B == B;
    LiveSplit(E, old1, os, idx, oe + 1);
  }

  /** A keyed move: the node `m` of the old vnode at `idx`, inside the
      window, moves to just before the window's first node `a`, and the
      slot it leaves is null. */
  lemma ListKeyed(E: map<VId, HostId>, N: seq<Option<VNode>>, c: Cursors, c1: Cursors, idx: int, a: HostId, m: HostId)
    requires 0 <= c.os < idx < c.oe < |c.oldCh| && 0 <= c.ns <= c.ne < |N|
    requires c1.os == c.os && c1.oe == c.oe && c1.ns == c.ns + 1 && c1.ne == c.ne && c1.oldCh == c.oldCh[idx := None]
    requires c.oldCh[c.os].Some? && c.oldCh[c.os].value.id in E && E[c.oldCh[c.os].value.id] == a
    requires c.oldCh[idx].Some? && c.oldCh[idx].value.id in E && E[c.oldCh[idx].value.id] == m
    requires N[c.ns].Some? && N[c.ns].value.id in E && E[N[c.ns].value.id] == m
    ensures var P, L1, L2, S := LiveElms(E, N[0..c.ns]), LiveElms(E, c.oldCh[c.os + 1..idx]),
                               LiveElms(E, c.oldCh[idx + 1..c.oe + 1]), LiveElms(E, N[c.ne + 1..|N|]);
            && Listed(E, N, c) == P + ([a] + L1) + [m] + (L2 + S)
            && Listed(E, N, c1) == P + [m] + ([a] + L1) + (L2 + S)
  {
    KeyedLists(E, N, c.oldCh, c1.oldCh, c.os, idx, c.oe, c.ns, c1.ns, c.ne, a, m);
  }

  /** `ListKeyed` on the bare bounds. */
  lemma KeyedLists(E: map<VId, HostId>, N: seq<Option<VNode>>, O: seq<Option<VNode>>, O1: seq<Option<VNode>>,
                   os: int, idx: int, oe: int, ns: int, ns1: int, ne: int, a: HostId, m: HostId)
    requires 0 <= os < idx < oe < |O| && 0 <= ns <= ne < |N| && O1 == O[idx := None] && ns1 == ns + 1
    requires O[os].Some? && O[os].value.id in E && E[O[os].value.id] == a
    requires O[idx].Some? && O[idx].value.id in E && E[O[idx].value.id] == m
    requires N[ns].Some? && N[ns].value.id in E && E[N[ns].value.id] == m
    ensures var P, L1, L2, S := LiveElms(E, N[0..ns]), LiveElms(E, O[os + 1..idx]),
                               LiveElms(E, O[idx + 1..oe + 1]), LiveElms(E, N[ne + 1..|N|]);
            && LiveElms(E, N[0..ns]) + LiveElms(E, O[os..oe + 1]) + S == P + ([a] + L1) + [m] + (L2 + S)
            && LiveElms(E, N[0..ns1]) + LiveElms(E, O1[os..oe + 1]) + S == P + [m] + ([a] + L1) + (L2 + S)
  {
    var P, S := LiveElms(E, N[0..ns]), LiveElms(E, N[ne + 1..|N|]);
    var L1, L2 := LiveElms(E, O[os + 1..idx]), LiveElms(E, O[idx + 1..oe + 1]);
    KeyedWindow(E, O, os, idx, oe, a, m);
    LiveTail(E, N, 0, ns + 1, m);
    RegroupKeyed(P, LiveElms(E, O[os..oe + 1]), S, LiveElms(E, O1[os..oe + 1]), LiveElms(E, N[0..ns + 1]),
                 a, L1, m, L2);
  }

  /** `Listed` spelled out. */
  lemma ListedIs(E: map<VId, HostId>, N: seq<Option<VNode>>, c: Cursors)
    requires 0 <= c.ns <= c.ne + 1 <= |N| && 0 <= c.os <= c.oe + 1 <= |c.oldCh|
    ensures Listed(E, N, c) == LiveElms(E, N[0..c.ns]) + LiveElms(E, c.oldCh[c.os..c.oe + 1]) + LiveElms(E, N[c.ne + 1..|N|])
  {
  }

  /** The window before and after a keyed move out of slot `idx`. */
  lemma KeyedWindow(E: map<VId, HostId>, oldCh: seq<Option<VNode>>, os: int, idx: int, oe: int, a: HostId, m: HostId)
    requires 0 <= os < idx < oe < |oldCh|
    requires oldCh[os].Some? && oldCh[os].value.id in E && E[oldCh[os].value.id] == a
    requires oldCh[idx].Some? && oldCh[idx].value.id in E && E[oldCh[idx].value.id] == m
    ensures var L1, L2 := LiveElms(E, oldCh[os + 1..idx]), LiveElms(E, oldCh[idx + 1..oe + 1]);
            && LiveElms(E, oldCh[os..oe + 1]) == [a] + L1 + ([m] + L2)
            && LiveElms(E, oldCh[idx := None][os..oe + 1]) == [a] + L1 + L2
  {
    LiveSplit(E, oldCh, os, idx, oe + 1);
    LiveHead(E, oldCh, os, idx, a);
    LiveHead(E, oldCh, idx, oe + 1, m);
    NulledWindow(E, oldCh, os, idx, oe);
  }

  /** A created node `n` goes just before the window's first node `a`. */
  lemma ListCreate(E: map<VId, HostId>, N: seq<Option<VNode>>, c: Cursors, c1: Cursors, a: HostId, n: HostId)
    requires 0 <= c.os <= c.oe < |c.oldCh| && 0 <= c.ns <= c.ne < |N|
    requires c1.os == c.os && c1.oe == c.oe && c1.ns == c.ns + 1 && c1.ne == c.ne && c1.oldCh == c.oldCh
    requires c.oldCh[c.os].Some? && c.oldCh[c.os].value.id in E && E[c.oldCh[c.os].value.id] == a
    requires N[c.ns].Some? && N[c.ns].value.id in E && E[N[c.ns].value.id] == n
    ensures var P, B := LiveElms(E, N[0..c.ns]), LiveElms(E, c.oldCh[c.os..c.oe + 1]) + LiveElms(E, N[c.ne + 1..|N|]);
            && B != [] && B[0] == a
            && Listed(E, N, c) == P + B
            && Listed(E, N, c1) == P + [n] + B
  {
    CreateLists(E, N, c.oldCh, c.os, c.oe, c.ns, c1.ns, c.ne, a, n);
  }

  /** `ListCreate` on the bare bounds. */
  lemma CreateLists(E: map<VId, HostId>, N: seq<Option<VNode>>, O: seq<Option<VNode>>,
                    os: int, oe: int, ns: int, ns1: int, ne: int, a: HostId, n: HostId)
    requires 0 <= os <= oe < |O| && 0 <= ns <= ne < |N| && ns1 == ns + 1
    requires O[os].Some? && O[os].value.id in E && E[O[os].value.id] == a
    requires N[ns].Some? && N[ns].value.id in E && E[N[ns].value.id] == n
    ensures var P, B := LiveElms(E, N[0..ns]), LiveElms(E, O[os..oe + 1]) + LiveElms(E, N[ne + 1..|N|]);
            && B != [] && B[0] == a
            && LiveElms(E, N[0..ns1]) == P + [n]
            && LiveElms(E, N[0..ns]) + LiveElms(E, O[os..oe + 1]) + LiveElms(E, N[ne + 1..|N|]) == P + B
            && LiveElms(E, N[0..ns1]) + LiveElms(E, O[os..oe + 1]) + LiveElms(E, N[ne + 1..|N|]) == P + [n] + B
  {
    LiveSplit(E, O, os, os + 1, oe + 1);
    LiveSlot(E, O, os, a);
    LiveSplit(E, N, 0, ns, ns + 1);
    LiveSlot(E, N, ns, n);
  }

  /** After patching the old child `k` into the new child `j`, the
      parent's list is still `Listed`, read with the new fields, and the
      window's old children still have their nodes. */
  lemma PatchedStep(modules: seq<Module>, corrected: bool, s0: State, x: VNode, y: VNode, s: State, c: Cursors,
                    s1: State, k: int, j: int)
    requires Setting(modules, corrected, s0, x, y)
    requires var O, N := x.children.value.items, y.children.value.items;
             Cur(O, N, c) && Tracked(s0, x, y, s, c) && Ordered(s0, x, y, s, c)
    requires LiveIn(c, k) && InNew(c, j) && 0 <= j < |y.children.value.items| && y.children.value.items[j].Some?
    requires c.oldCh[k] == x.children.value.items[k] && x.children.value.items[k].value.id in s0.elms
    requires Patched(s0, x, y, s, s1, k, j)
    ensures var N, e := y.children.value.items, s0.elms[x.id];
            e in s1.host.kids && s1.host.kids[e] == Listed(s1.elms, N, c)
    ensures forall k' :: LiveIn(c, k') ==>
              && c.oldCh[k'].value.id in s0.elms && c.oldCh[k'].value.id in s1.elms
              && s1.elms[c.oldCh[k'].value.id] == s0.elms[c.oldCh[k'].value.id]
  {
    var O, N, e := x.children.value.items, y.children.value.items, s0.elms[x.id];
    var I := Ids(N[j].value);
    assert OldChild(s0, x, O[k].value);
    assert NewChild(corrected, y, N[j].value);
    ContentIdsIn(y);
    forall j' | 0 <= j' < |N| && !InNew(c, j') && N[j'].Some? ensures Ids(N[j'].value) !! I {
      assert j' != j;
    }
    WindowIds(s0, x, y, s, c, s1.elms, I);
    ProcessedIds(s0, x, y, s, c, I);
    ListedKept(s.elms, s1.elms, N, c, I);
    ParentKept(s.host, s1.host, e, Foot(s0.host, s0.elms, O[k].value));
  }

  /** A list outside the changed nodes and the new ones is as it was. */
  lemma ParentKept(h: Host, h1: Host, e: HostId, F: set<HostId>)
    requires Valid(h) && e in h.kids && e !in F
    requires Outside(h, h1, F + Between(h.next, h1.next))
    ensures e in h1.kids && h1.kids[e] == h.kids[e]
  {
    assert e !in Between(h.next, h1.next);
  }

  /** A round that patched the old child `k` into the new child `j` and
      then at most moved nodes within the parent's list keeps the loop
      tracked. */
  lemma MovedDone(modules: seq<Module>, corrected: bool, s0: State, x: VNode, y: VNode, s: State, c: Cursors,
                  s1: State, c1: Cursors, s2: State, k: int, j: int)
    requires Setting(modules, corrected, s0, x, y)
    requires var O, N := x.children.value.items, y.children.value.items;
             Cur(O, N, c) && Cur(O, N, c1) && Tracked(s0, x, y, s, c)
    requires LiveIn(c, k) && InNew(c, j) && 0 <= j < |y.children.value.items| && y.children.value.items[j].Some?
    requires c.oldCh[k] == x.children.value.items[k] && x.children.value.items[k].value.id in s0.elms
    requires SameVnode(x.children.value.items[k].value, y.children.value.items[j].value)
    requires Patched(s0, x, y, s, s1, k, j)
    requires !LiveIn(c1, k) && forall k' :: LiveIn(c1, k') ==> LiveIn(c, k')
    requires !InNew(c1, j) && forall j' :: InNew(c1, j') <==> InNew(c, j') && j' != j
    requires var e := s0.elms[x.id];
             && s2.elms == s1.elms && s2.texts == s1.texts && s2.trace == s1.trace
             && Valid(s2.host) && s2.host.next == s1.host.next && Outside(s1.host, s2.host, {e})
             && e in s2.host.kids
    ensures Tracked(s0, x, y, s2, c1)
  {
    var O, N, e := x.children.value.items, y.children.value.items, s0.elms[x.id];
    var H, I := Foot(s0.host, s0.elms, O[k].value), Ids(N[j].value);
    assert OldChild(s0, x, O[k].value);
    assert NewChild(corrected, y, N[j].value);
    OutsideGrow(s.host, s1.host, s2.host, H + Between(s.host.next, s1.host.next), {e}, H + {e} + Between(s.host.next, s2.host.next));
    forall k' | LiveIn(c1, k') ensures Foot(s0.host, s0.elms, c.oldCh[k'].value) !! H {
      assert k' != k && c.oldCh[k'] == O[k'];
    }
    forall j' | 0 <= j' < |N| && !InNew(c, j') && N[j'].Some? ensures Ids(N[j'].value) !! I {
      assert j' != j;
    }
    SamePairs(O, N, k, j);
    TrackedStep(s0, x, y, s, c, s2, c1, H, I);
  }

  /** A round that created the new child at `c.ns` and inserted its node
      keeps the loop tracked, given that no old child pairs with it. */
  lemma CreatedDone(modules: seq<Module>, corrected: bool, s0: State, x: VNode, y: VNode, s: State, c: Cursors,
                    c1: Cursors, s2: State)
    requires x.children.Some? && y.children.Some? && x.id in s0.elms
    requires Apart(s0, x) && Siblings(corrected, y) && Ids(x) !! Ids(y)
    requires var O := x.children.value.items;
             && |c.oldCh| == |O| && |c1.oldCh| == |O|
             && (forall k :: 0 <= k < |O| && c.oldCh[k].Some? ==> c.oldCh[k] == O[k])
             && (forall k :: 0 <= k < |O| && c1.oldCh[k].Some? ==> c1.oldCh[k] == O[k])
    requires Tracked(s0, x, y, s, c)
    requires var N := y.children.value.items;
             InNew(c, c.ns) && 0 <= c.ns < |N| && N[c.ns].Some?
    requires var O, N := x.children.value.items, y.children.value.items;
             forall k :: !Pair(O, N, k, c.ns)
    requires forall k' :: LiveIn(c1, k') ==> LiveIn(c, k')
    requires !InNew(c1, c.ns) && forall j' :: InNew(c1, j') <==> InNew(c, j') && j' != c.ns
    requires var N, e := y.children.value.items, s0.elms[x.id];
             && Valid(s2.host) && s.host.next <= s2.host.next && e in s2.host.kids
             && Outside(s.host, s2.host, {e} + Between(s.host.next, s2.host.next))
             && Keeps(s, s2, Ids(N[c.ns].value)) && N[c.ns].value.id in s2.elms
    ensures Tracked(s0, x, y, s2, c1)
  {
    var O, N, e := x.children.value.items, y.children.value.items, s0.elms[x.id];
    var I := Ids(N[c.ns].value);
    assert NewChild(corrected, y, N[c.ns].value);
    assert {} + {e} + Between(s.host.next, s2.host.next) == {e} + Between(s.host.next, s2.host.next);
    forall j' | 0 <= j' < |N| && !InNew(c, j') && N[j'].Some? ensures Ids(N[j'].value) !! I {
      assert j' != c.ns;
    }
    TrackedStep(s0, x, y, s, c, s2, c1, {}, I);
  }

  /** Skipping a null old slot at the start of the window. */
  lemma ListSkipOldStart(E: map<VId, HostId>, N: seq<Option<VNode>>, c: Cursors, c1: Cursors)
    requires 0 <= c.os <= c.oe < |c.oldCh| && 0 <= c.ns <= c.ne < |N| && c.oldCh[c.os].None?
    requires c1.os == c.os + 1 && c1.oe == c.oe && c1.ns == c.ns && c1.ne == c.ne && c1.oldCh == c.oldCh
    ensures Listed(E, N, c1) == Listed(E, N, c)
  {
    LiveSplit(E, c.oldCh, c.os, c.os + 1, c.oe + 1);
    NullSlot(E, c.oldCh, c.os);
  }

  /** Skipping a null old slot at the end of the window. */
  lemma ListSkipOldEnd(E: map<VId, HostId>, N: seq<Option<VNode>>, c: Cursors, c1: Cursors)
    requires 0 <= c.os <= c.oe < |c.oldCh| && 0 <= c.ns <= c.ne < |N| && c.oldCh[c.oe].None?
    requires c1.os == c.os && c1.oe == c.oe - 1 && c1.ns == c.ns && c1.ne == c.ne && c1.oldCh == c.oldCh
    ensures Listed(E, N, c1) == Listed(E, N, c)
  {
    LiveSplit(E, c.oldCh, c.os, c.oe, c.oe + 1);
    NullSlot(E, c.oldCh, c.oe);
  }

  /** Skipping a null new slot at the start. */
  lemma ListSkipNewStart(E: map<VId, HostId>, N: seq<Option<VNode>>, c: Cursors, c1: Cursors)
    requires 0 <= c.os <= c.oe < |c.oldCh| && 0 <= c.ns <= c.ne < |N| && N[c.ns].None?
    requires c1.os == c.os && c1.oe == c.oe && c1.ns == c.ns + 1 && c1.ne == c.ne && c1.oldCh == c.oldCh
    ensures Listed(E, N, c1) == Listed(E, N, c)
  {
    LiveSplit(E, N, 0, c.ns, c.ns + 1);
    NullSlot(E, N, c.ns);
  }

  /** Skipping a null new slot at the end. */
  lemma ListSkipNewEnd(E: map<VId, HostId>, N: seq<Option<VNode>>, c: Cursors, c1: Cursors)
    requires 0 <= c.os <= c.oe < |c.oldCh| && 0 <= c.ns <= c.ne < |N| && N[c.ne].None?
    requires c1.os == c.os && c1.oe == c.oe && c1.ns == c.ns && c1.ne == c.ne - 1 && c1.oldCh == c.oldCh
    ensures Listed(E, N, c1) == Listed(E, N, c)
  {
    LiveSplit(E, N, c.ne, c.ne + 1, |N|);
    NullSlot(E, N, c.ne);
  }

  /** What a skipping round does to the loop variables. */
  lemma SkipFacts(O: seq<Option<VNode>>, N: seq<Option<VNode>>, c: Cursors)
    requires Cur(O, N, c) && Running(c)
    requires var m := Choose(c, N); m.SkipOldStart? || m.SkipOldEnd? || m.SkipNewStart? || m.SkipNewEnd?
    ensures var m, c1 := Choose(c, N), Advance(c, N);
            && 0 <= c.os <= c.oe < |c.oldCh| && 0 <= c.ns <= c.ne < |N| && c1.oldCh == c.oldCh
            && (forall k :: LiveIn(c1, k) ==> LiveIn(c, k))
            && (forall j :: InNew(c1, j) ==> InNew(c, j))
            && (forall j :: 0 <= j < |N| && InNew(c, j) && !InNew(c1, j) ==> N[j].None?)
            && (m.SkipOldStart? ==> c.oldCh[c.os].None? && c1.os == c.os + 1 && c1.oe == c.oe && c1.ns == c.ns && c1.ne == c.ne)
            && (m.SkipOldEnd? ==> c.oldCh[c.oe].None? && c1.os == c.os && c1.oe == c.oe - 1 && c1.ns == c.ns && c1.ne == c.ne)
            && (m.SkipNewStart? ==> N[c.ns].None? && c1.os == c.os && c1.oe == c.oe && c1.ns == c.ns + 1 && c1.ne == c.ne)
            && (m.SkipNewEnd? ==> N[c.ne].None? && c1.os == c.os && c1.oe == c.oe && c1.ns == c.ns && c1.ne == c.ne - 1)
  {
  }

  /** A round that skips a null slot changes nothing and keeps the loop
      tracked and ordered. */
  lemma SkipDone(modules: seq<Module>, corrected: bool, s0: State, x: VNode, y: VNode, s: State, c: Cursors)
    requires Setting(modules, corrected, s0, x, y)
    requires var O, N := x.children.value.items, y.children.value.items;
             Cur(O, N, c) && Running(c) && Tracked(s0, x, y, s, c) && Ordered(s0, x, y, s, c)
    requires var m := Choose(c, y.children.value.items);
             m.SkipOldStart? || m.SkipOldEnd? || m.SkipNewStart? || m.SkipNewEnd?
    ensures var O, N := x.children.value.items, y.children.value.items;
            Cur(O, N, Advance(c, N))
    ensures var N := y.children.value.items;
            Tracked(s0, x, y, s, Advance(c, N)) && Ordered(s0, x, y, s, Advance(c, N))
  {
    var O, N := x.children.value.items, y.children.value.items;
    var c1 := Advance(c, N);
    CurAdvance(O, N, c);
    SkipFacts(O, N, c);
    SkipTracked(modules, corrected, s0, x, y, s, c, c1);
    var m := Choose(c, N);
    if m.SkipOldStart? {
      ListSkipOldStart(s.elms, N, c, c1);
    } else if m.SkipOldEnd? {
      ListSkipOldEnd(s.elms, N, c, c1);
    } else if m.SkipNewStart? {
      ListSkipNewStart(s.elms, N, c, c1);
    } else {
      ListSkipNewEnd(s.elms, N, c, c1);
    }
  }

  lemma SkipTracked(modules: seq<Module>, corrected: bool, s0: State, x: VNode, y: VNode, s: State, c: Cursors, c1: Cursors)
    requires Setting(modules, corrected, s0, x, y)
    requires var O, N := x.children.value.items, y.children.value.items;
             Cur(O, N, c) && Cur(O, N, c1) && Tracked(s0, x, y, s, c)
    requires forall k :: LiveIn(c1, k) ==> LiveIn(c, k)
    requires var N := y.children.value.items;
             forall j :: InNew(c1, j) ==> InNew(c, j)
    requires var N := y.children.value.items;
             forall j :: 0 <= j < |N| && InNew(c, j) && !InNew(c1, j) ==> N[j].None?
    ensures Tracked(s0, x, y, s, c1)
  {
    assert Keeps(s, s, {});
    TrackedStep(s0, x, y, s, c, s, c1, {}, {});
  }
}
