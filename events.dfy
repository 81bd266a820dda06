/** The hook calls the reconciler makes (src/package/init.ts), recorded as
    events, and the event sequences that materialising and destroying a
    vnode tree produce. Hook bodies are foreign code: only the call and
    its order are modelled. */
module Events {
  import opened Wrappers
  import opened VNodes
  import opened Hooks

  /** The node-level hooks of `data.hook`. */
  datatype NodeHook = InitHook | CreateHook | InsertHook | PrepatchHook | UpdateHook
                    | PostpatchHook | DestroyHook | RemoveHook

  datatype Event =
    | ModuleCall(phase: Phase, m: nat, v: VId)   // cbs[phase][i](…, vnode) of module m
    | GlobalCall(phase: Phase, m: nat)           // cbs.pre[i]() and cbs.post[i]()
    | NodeCall(hook: NodeHook, v: VId)           // vnode.data.hook[name](…)

  /** Whether `v` has the node-level hook `k`. */
  predicate HasHook(v: VNode, k: NodeHook)
  {
    && v.data.Some? && v.data.value.hook.Some?
    && var hk := v.data.value.hook.value;
       match k
       case InitHook => hk.init
       case CreateHook => hk.create
       case InsertHook => hk.insert
       case PrepatchHook => hk.prepatch
       case UpdateHook => hk.update
       case PostpatchHook => hk.postpatch
       case DestroyHook => hk.destroy
       case RemoveHook => hk.remove
  }

  /** The call of `v`'s own hook `k`, when it has one. */
  function NodeEvents(v: VNode, k: NodeHook): (r: seq<Event>)
    ensures |r| <= 1
  {
    if HasHook(v, k) then [NodeCall(k, v.id)] else []
  }

  /** The calls of the module hooks `ms` of a phase on `v`, in order. */
  function ModuleEvents(ms: seq<nat>, ph: Phase, v: VId): (r: seq<Event>)
    ensures |r| == |ms|
    ensures forall i :: 0 <= i < |ms| ==> r[i] == ModuleCall(ph, ms[i], v)
  {
    seq(|ms|, i requires 0 <= i < |ms| => ModuleCall(ph, ms[i], v))
  }

  /** The calls of the global hooks `ms` of a phase. */
  function GlobalEvents(ms: seq<nat>, ph: Phase): (r: seq<Event>)
    ensures |r| == |ms|
    ensures forall i :: 0 <= i < |ms| ==> r[i] == GlobalCall(ph, ms[i])
  {
    seq(|ms|, i requires 0 <= i < |ms| => GlobalCall(ph, ms[i]))
  }

  /** The hook calls `createElm` makes for the tree `v`: its `init` hook;
      then, for an element, every module `create` hook, the calls for each
      non-null child in order, and last its own `create` hook. */
  function CreateEvents(creates: seq<nat>, v: VNode): seq<Event>
    decreases v, 1, 0
  {
    NodeEvents(v, InitHook)
    + if !IsElement(v) then [] else
        ModuleEvents(creates, Create, v.id)
        + (if v.children.Some? then CreateEventsFrom(creates, v, 0) else [])
        + NodeEvents(v, CreateHook)
  }

  /** The calls for the children of `v` from index `i` on. */
  function CreateEventsFrom(creates: seq<nat>, v: VNode, i: nat): seq<Event>
    requires v.children.Some?
    decreases v, 0, |v.children.value.items| - i
  {
    var items := v.children.value.items;
    if i >= |items| then []
    else (if items[i].Some? then CreateEvents(creates, items[i].value) else []) + CreateEventsFrom(creates, v, i + 1)
  }

  /** The vnodes `createElm` pushes on the insert queue for the tree `v`:
      an element's descendants first, then itself if it has an `insert` hook. */
  function InsertQueue(v: VNode): seq<VNode>
    decreases v, 1, 0
  {
    if !IsElement(v) then [] else
      (if v.children.Some? then InsertQueueFrom(v, 0) else [])
      + if HasHook(v, InsertHook) then [v] else []
  }

  function InsertQueueFrom(v: VNode, i: nat): seq<VNode>
    requires v.children.Some?
    decreases v, 0, |v.children.value.items| - i
  {
    var items := v.children.value.items;
    if i >= |items| then []
    else (if items[i].Some? then InsertQueue(items[i].value) else []) + InsertQueueFrom(v, i + 1)
  }

  /** The hook calls of `invokeDestroyHook` on `v`: nothing for a vnode
      without data (its subtree is skipped too); otherwise its own
      `destroy` hook, every module `destroy` hook, then each non-null
      child's calls in order. */
  function DestroyEvents(destroys: seq<nat>, v: VNode): seq<Event>
    decreases v, 1, 0
  {
    if v.data.None? then [] else
      NodeEvents(v, DestroyHook) + ModuleEvents(destroys, Destroy, v.id)
      + if v.children.Some? then DestroyEventsFrom(destroys, v, 0) else []
  }

  function DestroyEventsFrom(destroys: seq<nat>, v: VNode, i: nat): seq<Event>
    requires v.children.Some?
    decreases v, 0, |v.children.value.items| - i
  {
    var items := v.children.value.items;
    if i >= |items| then []
    else (if items[i].Some? then DestroyEvents(destroys, items[i].value) else []) + DestroyEventsFrom(destroys, v, i + 1)
  }

  /** The hook calls `removeVnodes` makes for one removed child: none for a
      text vnode; otherwise the destroy calls of its subtree, every module
      `remove` hook, and its own `remove` hook. */
  function RemoveEvents(destroys: seq<nat>, removes: seq<nat>, ch: VNode): seq<Event>
  {
    if ch.sel.None? then []
    else DestroyEvents(destroys, ch) + ModuleEvents(removes, Remove, ch.id) + NodeEvents(ch, RemoveHook)
  }

  /** The event belongs to the destroy phase. */
  predicate IsDestroy(e: Event)
  {
    (e.ModuleCall? && e.phase == Destroy) || (e.NodeCall? && e.hook == DestroyHook)
  }

  /** The event belongs to the remove phase. */
  predicate IsRemove(e: Event)
  {
    (e.ModuleCall? && e.phase == Remove) || (e.NodeCall? && e.hook == RemoveHook)
  }

  /** Destroying a tree calls only destroy hooks, and only on vnodes of the tree. */
  lemma {:induction false} DestroyEventsOnly(destroys: seq<nat>, v: VNode)
    ensures forall e :: e in DestroyEvents(destroys, v) ==> IsDestroy(e) && e.v in Ids(v)
    decreases v, 1, 0
  {
    if v.data.Some? && v.children.Some? {
      DestroyEventsFromOnly(destroys, v, 0);
    }
  }

  lemma {:induction false} DestroyEventsFromOnly(destroys: seq<nat>, v: VNode, i: nat)
    requires v.children.Some?
    ensures forall e :: e in DestroyEventsFrom(destroys, v, i) ==> IsDestroy(e) && e.v in Ids(v)
    decreases v, 0, |v.children.value.items| - i
  {
    var items := v.children.value.items;
    if i < |items| {
      if items[i].Some? {
        DestroyEventsOnly(destroys, items[i].value);
      }
      DestroyEventsFromOnly(destroys, v, i + 1);
    }
  }

  /** In the calls for one removed child, every destroy hook of its subtree
      runs before any remove hook. */
  lemma DestroyBeforeRemove(destroys: seq<nat>, removes: seq<nat>, ch: VNode)
    ensures var r := RemoveEvents(destroys, removes, ch);
            forall i, j :: 0 <= i < |r| && 0 <= j < |r| && IsDestroy(r[i]) && IsRemove(r[j]) ==> i < j
  {
    if ch.sel.Some? {
      DestroyEventsOnly(destroys, ch);
      var d := DestroyEvents(destroys, ch);
      var r := RemoveEvents(destroys, removes, ch);
      forall k | |d| <= k < |r| ensures !IsDestroy(r[k]) {}
      forall k | 0 <= k < |d| ensures !IsRemove(r[k]) {
        assert r[k] == d[k] && d[k] in d;
      }
    }
  }

  /** Every queued vnode is an element of the tree with an `insert` hook,
      and the root, when queued, is queued once and last: after all of its
      descendants. */
  lemma {:induction false} InsertQueueInTree(v: VNode)
    ensures forall x :: x in InsertQueue(v) ==> x.id in Ids(v) && HasHook(x, InsertHook) && IsElement(x)
    ensures DistinctIds(v) ==>
              forall k :: 0 <= k < |InsertQueue(v)| && InsertQueue(v)[k].id == v.id ==> k == |InsertQueue(v)| - 1
    decreases v, 1, 0
  {
    if IsElement(v) && v.children.Some? {
      InsertQueueFromInTree(v, 0);
      var q := InsertQueue(v);
      var d := InsertQueueFrom(v, 0);
      if DistinctIds(v) {
        forall k | 0 <= k < |d| ensures d[k].id != v.id {
          assert d[k] in d;
          var j :| 0 <= j < |v.children.value.items| && v.children.value.items[j].Some?
                   && d[k].id in Ids(v.children.value.items[j].value);
        }
      }
    }
  }

  lemma {:induction false} InsertQueueFromInTree(v: VNode, i: nat)
    requires v.children.Some?
    ensures forall x :: x in InsertQueueFrom(v, i) ==>
              x.id in IdsOf(v.children.value.items) && HasHook(x, InsertHook) && IsElement(x)
    decreases v, 0, |v.children.value.items| - i
  {
    var items := v.children.value.items;
    if i < |items| {
      if items[i].Some? {
        InsertQueueInTree(items[i].value);
      }
      InsertQueueFromInTree(v, i + 1);
    }
  }
}
