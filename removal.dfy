/** `invokeDestroyHook`, `createRmCb` and `removeVnodes`
    (src/package/init.ts:80-87, 175-224) as functions of the reconciler's
    state: the destroy and remove hook calls, the `rm` countdown of each
    removed vnode, and the detach it triggers. A hook that keeps `rm` to
    call it later leaves its countdown in `pending`. */
module Removal {
  import opened Wrappers
  import opened VNodes
  import opened HostTree
  import opened Hooks
  import opened Events
  import opened Countdowns
  import opened Trees
  import opened States
  import opened KeyMaps

  /** `invokeDestroyHook(v)`: the destroy hook calls of the subtree. */
  function InvokeDestroyHook(modules: seq<Module>, s: State, v: VNode): State
  {
    s.(trace := s.trace + DestroyEvents(Defined(modules, Destroy), v))
  }

  /** `api.removeChild(parentNode(x), x)`: `x` leaves the list holding it.
      An undefined `x` or a node without parent makes the DOM throw; the
      host is then left as it is. */
  function DetachElm(h: Host, x: Option<HostId>): Host
  {
    if x.Some? && ParentNode(h, x.value).Some? then RemoveChild(h, ParentNode(h, x.value).value, x.value) else h
  }

  /** One call of the `rm` closure of `createRmCb`: the count goes down by
      one, and the call that brings it to zero detaches the node. */
  function CallRm(h: Host, c: Countdown): (r: (Host, Countdown))
    ensures r.1 == c.(listeners := c.listeners - 1)
    ensures r.0 == if c.listeners == 1 then DetachElm(h, c.elm) else h
  {
    var t := Tick(c);
    (if t.1 then DetachElm(h, c.elm) else h, t.0)
  }

  /** Whether the remove hook of module `m` calls `rm` before returning. */
  predicate SyncModule(modules: seq<Module>, m: nat)
  {
    m < |modules| && modules[m].removeSync
  }

  /** Whether `ch` has its own remove hook and that hook keeps `rm` for later. */
  predicate RemovesLater(ch: VNode)
  {
    HasHook(ch, RemoveHook) && !ch.data.value.hook.value.removeSync
  }

  /** The module remove hooks from the `k`-th on: each is called with
      `(ch, rm)`, and a synchronous one calls `rm`. */
  function ModuleRemoves(modules: seq<Module>, removes: seq<nat>, s: State, ch: VNode, c: Countdown, k: nat): (r: (State, Countdown))
    decreases |removes| - k
  {
    if k >= |removes| then (s, c)
    else
      var s1 := s.(trace := s.trace + [ModuleCall(Remove, removes[k], ch.id)]);
      var call := if SyncModule(modules, removes[k]) then CallRm(s1.host, c) else (s1.host, c);
      ModuleRemoves(modules, removes, s1.(host := call.0), ch, call.1, k + 1)
  }

  /** One removed child: a vnode without `sel` (text) is removed from the
      parent at once; any other gets its destroy hooks, a countdown
      started at `cbs.remove.length + 1`, the module remove hooks, and its
      own remove hook or a direct `rm()`. */
  function RemoveOne(modules: seq<Module>, s: State, p: HostId, ch: VNode): State
  {
    if ch.sel.None? then
      var x := ElmOf(s, ch);
      s.(host := if x.Some? then RemoveChild(s.host, p, x.value) else s.host)
    else
      var removes := Defined(modules, Remove);
      var s1 := InvokeDestroyHook(modules, s, ch);
      var m := ModuleRemoves(modules, removes, s1, ch, Countdown(ElmOf(s1, ch), |removes| + 1), 0);
      var s2 := m.0.(trace := m.0.trace + NodeEvents(ch, RemoveHook));
      var own := if RemovesLater(ch) then (s2.host, m.1) else CallRm(s2.host, m.1);
      s2.(host := own.0, pending := s2.pending + if own.1.listeners > 0 then [own.1] else [])
  }

  /** `removeVnodes(parent, items, i, end)`: every non-null slot from `i`
      to `end` is removed in order. */
  function RemoveVnodes(modules: seq<Module>, s: State, p: HostId, items: seq<Option<VNode>>, i: int, end: int): State
    decreases end - i
  {
    if i > end then s
    else
      var s1 := if SlotAt(items, i).Some? then RemoveOne(modules, s, p, SlotAt(items, i).value) else s;
      RemoveVnodes(modules, s1, p, items, i + 1, end)
  }

  /** The hook calls of `removeVnodes` over slots `i` to `end`. */
  function RemoveEventsFrom(destroys: seq<nat>, removes: seq<nat>, items: seq<Option<VNode>>, i: int, end: int): seq<Event>
    decreases end - i
  {
    if i > end then []
    else (if SlotAt(items, i).Some? then RemoveEvents(destroys, removes, SlotAt(items, i).value) else [])
         + RemoveEventsFrom(destroys, removes, items, i + 1, end)
  }

  /** The number of synchronous module remove hooks from the `k`-th on. */
  function CountSync(modules: seq<Module>, removes: seq<nat>, k: nat): (n: nat)
    ensures n <= |removes| - k || k > |removes|
    decreases |removes| - k
  {
    if k >= |removes| then 0
    else (if SyncModule(modules, removes[k]) then 1 else 0) + CountSync(modules, removes, k + 1)
  }

  /** Whether every listener of `ch` calls `rm` before `removeVnodes`
      returns: all module remove hooks and its own. */
  predicate AllCallNow(modules: seq<Module>, ch: VNode)
  {
    CountSync(modules, Defined(modules, Remove), 0) == |Defined(modules, Remove)| && !RemovesLater(ch)
  }

  /** The calls of `rm` still to come for `ch` once `removeVnodes` returns. */
  function Deferred(modules: seq<Module>, ch: VNode): nat
  {
    |Defined(modules, Remove)| - CountSync(modules, Defined(modules, Remove), 0) + if RemovesLater(ch) then 1 else 0
  }

  /** The module remove hooks never detach: the count starts one above
      their number. They call the hooks in order and take one off the
      count per synchronous `rm` call. */
  lemma {:induction false} ModuleRemovesSpec(modules: seq<Module>, removes: seq<nat>, s: State, ch: VNode, c: Countdown, k: nat)
    requires k <= |removes| && c.listeners > CountSync(modules, removes, k)
    ensures var r := ModuleRemoves(modules, removes, s, ch, c, k);
            && r.0 == s.(trace := s.trace + ModuleEvents(removes[k..], Remove, ch.id))
            && r.1 == c.(listeners := c.listeners - CountSync(modules, removes, k))
    decreases |removes| - k
  {
    if k < |removes| {
      var s1 := s.(trace := s.trace + [ModuleCall(Remove, removes[k], ch.id)]);
      var call := if SyncModule(modules, removes[k]) then CallRm(s1.host, c) else (s1.host, c);
      assert call.0 == s.host;
      ModuleRemovesSpec(modules, removes, s1.(host := call.0), ch, call.1, k + 1);
      assert ModuleEvents(removes[k..], Remove, ch.id) == [ModuleCall(Remove, removes[k], ch.id)] + ModuleEvents(removes[k + 1..], Remove, ch.id);
      Assoc(s.trace, [ModuleCall(Remove, removes[k], ch.id)], ModuleEvents(removes[k + 1..], Remove, ch.id));
    } else {
      assert removes[k..] == [];
      assert s.trace + ModuleEvents(removes[k..], Remove, ch.id) == s.trace;
    }
  }

  /** Removing one vnode with a selector: its destroy and remove hook calls
      are made in the documented order; the node is detached from its
      parent exactly when every listener has called `rm`, and otherwise
      its countdown waits in `pending` for the calls still to come.
      Nothing else changes. */
  lemma RemoveOneSpec(modules: seq<Module>, s: State, p: HostId, ch: VNode)
    requires ch.sel.Some?
    ensures var r := RemoveOne(modules, s, p, ch);
            && r.trace == s.trace + RemoveEvents(Defined(modules, Destroy), Defined(modules, Remove), ch)
            && r.elms == s.elms && r.texts == s.texts && r.queue == s.queue
            && r.host == (if AllCallNow(modules, ch) then DetachElm(s.host, ElmOf(s, ch)) else s.host)
            && r.pending == s.pending + if AllCallNow(modules, ch) then [] else [Countdown(ElmOf(s, ch), Deferred(modules, ch))]
  {
    var removes := Defined(modules, Remove);
    var s1 := InvokeDestroyHook(modules, s, ch);
    ModuleRemovesSpec(modules, removes, s1, ch, Countdown(ElmOf(s1, ch), |removes| + 1), 0);
    assert removes[0..] == removes;
    Assoc(s.trace, DestroyEvents(Defined(modules, Destroy), ch), ModuleEvents(removes, Remove, ch.id));
    Assoc(s.trace, DestroyEvents(Defined(modules, Destroy), ch) + ModuleEvents(removes, Remove, ch.id), NodeEvents(ch, RemoveHook));
  }

  /** A vnode without selector is removed from the parent directly, with no hook call. */
  lemma RemoveTextSpec(modules: seq<Module>, s: State, p: HostId, ch: VNode)
    requires ch.sel.None?
    ensures var r := RemoveOne(modules, s, p, ch);
            && r.trace == s.trace + RemoveEvents(Defined(modules, Destroy), Defined(modules, Remove), ch)
            && r.elms == s.elms && r.texts == s.texts && r.queue == s.queue && r.pending == s.pending
            && r.host == if ElmOf(s, ch).Some? then RemoveChild(s.host, p, ElmOf(s, ch).value) else s.host
  {
    assert s.trace + [] == s.trace;
  }

  /** `removeVnodes` makes the hook calls of the removed children, slot by slot. */
  lemma {:induction false} RemoveVnodesTrace(modules: seq<Module>, s: State, p: HostId, items: seq<Option<VNode>>, i: int, end: int)
    ensures RemoveVnodes(modules, s, p, items, i, end).trace
            == s.trace + RemoveEventsFrom(Defined(modules, Destroy), Defined(modules, Remove), items, i, end)
    decreases end - i
  {
    var destroys, removes := Defined(modules, Destroy), Defined(modules, Remove);
    if i > end {
      assert s.trace + [] == s.trace;
    } else {
      var s1 := if SlotAt(items, i).Some? then RemoveOne(modules, s, p, SlotAt(items, i).value) else s;
      var e := if SlotAt(items, i).Some? then RemoveEvents(destroys, removes, SlotAt(items, i).value) else [];
      if SlotAt(items, i).Some? {
        var ch := SlotAt(items, i).value;
        if ch.sel.Some? { RemoveOneSpec(modules, s, p, ch); } else { RemoveTextSpec(modules, s, p, ch); }
      } else {
        assert s1.trace == s.trace + e;
      }
      RemoveVnodesTrace(modules, s1, p, items, i + 1, end);
      Assoc(s.trace, e, RemoveEventsFrom(destroys, removes, items, i + 1, end));
    }
  }

  /** Every module remove hook calls `rm` before returning. */
  predicate AllModulesSync(modules: seq<Module>)
  {
    forall m :: 0 <= m < |modules| && modules[m].remove ==> modules[m].removeSync
  }

  lemma {:induction false} CountSyncAll(modules: seq<Module>, k: nat)
    requires AllModulesSync(modules) && k <= |Defined(modules, Remove)|
    ensures CountSync(modules, Defined(modules, Remove), k) == |Defined(modules, Remove)| - k
    decreases |Defined(modules, Remove)| - k
  {
    var removes := Defined(modules, Remove);
    if k < |removes| {
      DefinedSpec(modules, Remove);
      assert removes[k] in removes;
      CountSyncAll(modules, k + 1);
    }
  }

  /** With synchronous hooks, removing the children from `i` to `end`
      whose host nodes sit together in `p`'s list takes exactly those
      nodes out of the list, and changes nothing else. */
  lemma {:induction false} RemoveVnodesSync(modules: seq<Module>, s: State, p: HostId, items: seq<Option<VNode>>,
                                            i: int, end: int, before: seq<HostId>, after: seq<HostId>)
    requires 0 <= i <= end + 1 <= |items|
    requires Valid(s.host) && p in s.host.kids && AllModulesSync(modules)
    requires forall j :: i <= j <= end && items[j].Some? ==> items[j].value.id in s.elms && !RemovesLater(items[j].value)
    requires s.host.kids[p] == before + LiveElms(s.elms, items[i..end + 1]) + after
    ensures var r := RemoveVnodes(modules, s, p, items, i, end);
            && r == s.(host := r.host, trace := r.trace)
            && Valid(r.host) && r.host == s.host.(kids := s.host.kids[p := before + after])
    decreases end - i
  {
    if i > end {
      assert items[i..end + 1] == [];
      assert before + [] + after == before + after;
      assert s.host.kids[p := before + after] == s.host.kids;
    } else {
      var s1 := if SlotAt(items, i).Some? then RemoveOne(modules, s, p, SlotAt(items, i).value) else s;
      assert RemoveVnodes(modules, s, p, items, i, end) == RemoveVnodes(modules, s1, p, items, i + 1, end);
      RemoveSlotSync(modules, s, p, items, i, end, before, after);
      RemoveVnodesSync(modules, s1, p, items, i + 1, end, before, after);
      KidsOverwrite(s.host, p, s1.host.kids[p], before + after);
    }
  }

  /** The first slot of the range: its host node, if any, leaves the list. */
  lemma RemoveSlotSync(modules: seq<Module>, s: State, p: HostId, items: seq<Option<VNode>>,
                       i: int, end: int, before: seq<HostId>, after: seq<HostId>)
    requires 0 <= i <= end < |items|
    requires Valid(s.host) && p in s.host.kids && AllModulesSync(modules)
    requires forall j :: i <= j <= end && items[j].Some? ==> items[j].value.id in s.elms && !RemovesLater(items[j].value)
    requires s.host.kids[p] == before + LiveElms(s.elms, items[i..end + 1]) + after
    ensures var s1 := if SlotAt(items, i).Some? then RemoveOne(modules, s, p, SlotAt(items, i).value) else s;
            && s1 == s.(host := s1.host, trace := s1.trace)
            && Valid(s1.host) && p in s1.host.kids
            && s1.host.kids[p] == before + LiveElms(s1.elms, items[i + 1..end + 1]) + after
            && s1.host == s.host.(kids := s.host.kids[p := s1.host.kids[p]])
  {
    var rest := LiveElms(s.elms, items[i + 1..end + 1]);
    assert items[i..end + 1] == [items[i]] + items[i + 1..end + 1];
    LiveElmsAppend(s.elms, [items[i]], items[i + 1..end + 1]);
    LiveElmsOne(s.elms, items[i]);
    if items[i].Some? {
      var ch := items[i].value;
      assert before + ([s.elms[ch.id]] + rest) + after == before + [s.elms[ch.id]] + (rest + after);
      RemoveOneSync(modules, s, p, ch, before, rest + after);
      assert before + (rest + after) == before + rest + after;
    } else {
      assert s.host.kids[p := s.host.kids[p]] == s.host.kids;
    }
  }

  /** One child whose host node `x` sits in `p`'s list between `before`
      and `after`: with synchronous hooks, `x` leaves the list. */
  lemma RemoveOneSync(modules: seq<Module>, s: State, p: HostId, ch: VNode, before: seq<HostId>, after: seq<HostId>)
    requires Valid(s.host) && p in s.host.kids && AllModulesSync(modules) && !RemovesLater(ch)
    requires ElmOf(s, ch).Some? && s.host.kids[p] == before + [ElmOf(s, ch).value] + after
    ensures var r := RemoveOne(modules, s, p, ch);
            && r == s.(host := r.host, trace := r.trace)
            && Valid(r.host) && r.host == s.host.(kids := s.host.kids[p := before + after])
  {
    var x := ElmOf(s, ch).value;
    assert x in s.host.kids[p];
    ParentOfListed(s.host, p, x);
    RemoveChildSpec(s.host, p, x);
    NoDupSplit(s.host.kids[p], before, x, after);
    WithoutSplit(before, x, after);
    if ch.sel.Some? {
      RemoveOneSpec(modules, s, p, ch);
      CountSyncAll(modules, 0);
    }
  }

  /** In a list without repeats, an element occurs on neither side of itself. */
  lemma NoDupSplit(l: seq<HostId>, a: seq<HostId>, x: HostId, b: seq<HostId>)
    requires NoDup(l) && l == a + [x] + b
    ensures x !in a && x !in b
  {
    forall i | 0 <= i < |a| ensures a[i] != x {
      assert l[i] == a[i] && l[|a|] == x;
    }
    forall i | 0 <= i < |b| ensures b[i] != x {
      assert l[|a| + 1 + i] == b[i] && l[|a|] == x;
    }
  }

  /** A second write to the same list replaces the first. */
  lemma KidsOverwrite(h: Host, p: HostId, l1: seq<HostId>, l2: seq<HostId>)
    ensures h.(kids := h.kids[p := l1]).(kids := h.(kids := h.kids[p := l1]).kids[p := l2]) == h.(kids := h.kids[p := l2])
  {
    assert h.kids[p := l1][p := l2] == h.kids[p := l2];
  }
  /** `removeChild` keeps the host consistent and creates nothing. */
  lemma RemoveChildValid(h: Host, p: HostId, c: HostId)
    requires Valid(h)
    ensures var r := RemoveChild(h, p, c);
            Valid(r) && r.next == h.next && r.info == h.info
  {
    if p in h.kids && c in h.kids[p] {
      RemoveChildSpec(h, p, c);
    }
  }

  /** Removing any run of children, with hooks that call `rm` now or
      later, keeps the host consistent, only appends to the trace, and
      writes no vnode field. */
  lemma {:induction false} RemoveVnodesValid(modules: seq<Module>, s: State, p: HostId, items: seq<Option<VNode>>, i: int, end: int)
    requires Valid(s.host)
    ensures var r := RemoveVnodes(modules, s, p, items, i, end);
            && Valid(r.host) && r.host.next == s.host.next && r.host.info == s.host.info
            && r.elms == s.elms && r.texts == s.texts && s.trace <= r.trace
    decreases end - i
  {
    if i <= end {
      var s1 := if SlotAt(items, i).Some? then RemoveOne(modules, s, p, SlotAt(items, i).value) else s;
      if SlotAt(items, i).Some? {
        RemoveOneValid(modules, s, p, SlotAt(items, i).value);
      }
      RemoveVnodesValid(modules, s1, p, items, i + 1, end);
    }
  }
  lemma RemoveOneValid(modules: seq<Module>, s: State, p: HostId, ch: VNode)
    requires Valid(s.host)
    ensures var r := RemoveOne(modules, s, p, ch);
            && Valid(r.host) && r.host.next == s.host.next && r.host.info == s.host.info
            && r.elms == s.elms && r.texts == s.texts && s.trace <= r.trace
  {
    if ch.sel.Some? {
      RemoveOneSpec(modules, s, p, ch);
      var x := ElmOf(s, ch);
      if x.Some? && ParentNode(s.host, x.value).Some? {
        RemoveChildValid(s.host, ParentNode(s.host, x.value).value, x.value);
      }
    } else {
      RemoveTextSpec(modules, s, p, ch);
      if ElmOf(s, ch).Some? {
        RemoveChildValid(s.host, p, ElmOf(s, ch).value);
      }
    }
  }
}
