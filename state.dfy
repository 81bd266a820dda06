/** Everything the reconciler of src/package/init.ts changes while it works:
    the host tree, the fields it writes into vnode objects, the hook calls
    made so far, the insert queue, and the removal countdowns whose `rm`
    continuation a hook still holds. */
module States {
  import opened Wrappers
  import opened VNodes
  import opened HostTree
  import opened Events
  import opened Countdowns

  datatype State = State(
    host: Host,
    elms: map<VId, HostId>,      // `vnode.elm` as written by the reconciler
    texts: map<VId, Prim>,       // `vnode.text` as written by `createElm` for comments
    trace: seq<Event>,           // the hook calls made, in order
    queue: seq<VNode>,           // `insertedVnodeQueue`
    pending: seq<Countdown>)     // `rm` continuations held by asynchronous remove hooks

  /** `vnode.elm`: the value the reconciler wrote, or the one the vnode was
      made with. */
  function ElmOf(s: State, v: VNode): Option<HostId>
  {
    if v.id in s.elms then Some(s.elms[v.id]) else v.elm
  }

  /** The host only gains nodes: ids stay allocated and nodes stay known. */
  ghost predicate Grows(h: Host, h': Host)
  {
    h.next <= h'.next && h.kids.Keys <= h'.kids.Keys
  }

  lemma Assoc<T>(a: seq<T>, b: seq<T>, c: seq<T>)
    ensures a + b + c == a + (b + c)
  {
  }

  lemma Assoc5<T>(t: seq<T>, a: seq<T>, b: seq<T>, c: seq<T>, d: seq<T>)
    ensures t + a + b + c + d == t + (a + (b + c + d))
  {
  }
}
