/** The virtual node record (src/package/vnode.ts) and the structural
    predicates over vnode trees that the reconciler relies on. */
module VNodes {
  import opened Wrappers

  /** Identity of a vnode object (JavaScript reference identity). */
  type VId = nat
  /** Identity of a host (DOM) node. */
  type HostId = nat
  /** Keys are compared as the strings they become as object keys. */
  type Key = string

  /** A JavaScript primitive as `is.primitive` accepts it: a string or a number. */
  datatype Prim = PStr(s: string) | PNum(n: int)

  /** The node-level hooks in `data.hook`: which of them are present.
      `removeSync` says whether the node's own `remove` hook calls its
      continuation `rm` before returning. */
  datatype NodeHooks = NodeHooks(
    init: bool, create: bool, insert: bool, prepatch: bool, update: bool,
    postpatch: bool, destroy: bool, remove: bool, removeSync: bool)

  /** The fields of `VNodeData` the core reads: `key`, `ns` and `hook`.
      The module-specific bags are opaque to the core and left out. */
  datatype VNodeData = VNodeData(key: Option<Key>, ns: Option<string>, hook: Option<NodeHooks>)

  const EmptyData := VNodeData(None, None, None)

  /** A vnode object. `id` is its identity; `children` carries the identity
      of the children array (`ref`) beside its slots, each a vnode or
      null/undefined. */
  datatype VNode = VNode(
    id: VId,
    sel: Option<string>,
    data: Option<VNodeData>,
    children: Option<Kids>,
    text: Option<Prim>,
    elm: Option<HostId>,
    key: Option<Key>)

  datatype Kids = Kids(ref: nat, items: seq<Option<VNode>>)

  /** `data.key`, undefined when there is no data. */
  function KeyOf(data: Option<VNodeData>): Option<Key>
  {
    if data.None? then None else data.value.key
  }

  /** The `vnode` constructor: stores every field as given and extracts the key. */
  function Make(id: VId, sel: Option<string>, data: Option<VNodeData>, children: Option<Kids>,
                text: Option<Prim>, elm: Option<HostId>): (v: VNode)
    ensures v.id == id && v.sel == sel && v.data == data && v.children == children
    ensures v.text == text && v.elm == elm
    ensures data.None? ==> v.key.None?
    ensures data.Some? ==> v.key == data.value.key
  {
    VNode(id, sel, data, children, text, elm, KeyOf(data))
  }

  /** `sameVnode`: equal keys and equal selectors, undefined matching undefined. */
  predicate SameVnode(a: VNode, b: VNode)
  {
    a.key == b.key && a.sel == b.sel
  }

  /** An element vnode: a selector other than the comment selector `!`. */
  predicate IsElement(v: VNode)
  {
    v.sel.Some? && v.sel.value != "!"
  }

  /** The non-null children of a vnode, in order. */
  function Live(items: seq<Option<VNode>>): (r: seq<VNode>)
    ensures |r| <= |items|
    ensures forall x :: x in r <==> Some(x) in items
  {
    if items == [] then []
    else if items[0].Some? then [items[0].value] + Live(items[1..])
    else Live(items[1..])
  }

  /** The identities of every vnode object in the tree rooted at `v`. */
  function Ids(v: VNode): set<VId>
  {
    {v.id} + if v.children.None? then {} else
      var items := v.children.value.items;
      set i, x | 0 <= i < |items| && items[i].Some? && x in Ids(items[i].value) :: x
  }

  /** The identities of the children arrays in the tree rooted at `v`. */
  function Refs(v: VNode): set<nat>
  {
    if v.children.None? then {} else
      var items := v.children.value.items;
      {v.children.value.ref} + set i, x | 0 <= i < |items| && items[i].Some? && x in Refs(items[i].value) :: x
  }

  /** The identities in the trees of the non-null slots. */
  function IdsOf(items: seq<Option<VNode>>): set<VId>
  {
    set i, x | 0 <= i < |items| && items[i].Some? && x in Ids(items[i].value) :: x
  }

  /** No vnode object occurs twice in the tree: sibling subtrees are disjoint
      and no node is its own descendant. */
  predicate DistinctIds(v: VNode)
  {
    v.children.Some? ==>
      var items := v.children.value.items;
      && (forall i :: 0 <= i < |items| && items[i].Some? ==>
            v.id !in Ids(items[i].value) && DistinctIds(items[i].value))
      && (forall i, j :: 0 <= i < j < |items| && items[i].Some? && items[j].Some? ==>
            Ids(items[i].value) !! Ids(items[j].value))
  }

  /** Keys defined on two different non-null slots are different. */
  predicate UniqueKeys(items: seq<Option<VNode>>)
  {
    forall i, j :: (0 <= i < j < |items| && items[i].Some? && items[j].Some? && items[i].value.key.Some?)
      ==> items[i].value.key != items[j].value.key
  }

  /** Sibling keys are unique at every level of the tree. */
  predicate WellKeyed(v: VNode)
  {
    v.children.Some? ==>
      var items := v.children.value.items;
      UniqueKeys(items) && forall i :: 0 <= i < |items| && items[i].Some? ==> WellKeyed(items[i].value)
  }

  /** `text` and `children` are never both defined (documented on the
      record, established by callers, not by the constructor). */
  predicate TextXorChildren(v: VNode)
  {
    !(v.text.Some? && v.children.Some?)
  }
}
