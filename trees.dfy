/** What it means for the host tree to show a vnode tree, and the host
    nodes a vnode subtree occupies. These are the specifications the
    reconciler (src/package/init.ts) is proved against. */
module Trees {
  import opened Wrappers
  import opened VNodes
  import opened HostTree

  /** Decimal digits of a natural number. */
  function NatString(n: nat): (s: string)
    ensures |s| >= 1 && forall k :: 0 <= k < |s| ==> '0' <= s[k] <= '9'
    decreases n
  {
    var d := [(n % 10 + '0' as int) as char];
    if n < 10 then d else NatString(n / 10) + d
  }

  /** `String(x)` for the primitives a vnode's text may hold. */
  function PrimString(p: Prim): string
  {
    match p
    case PStr(s) => s
    case PNum(n) => if n < 0 then "-" + NatString(-n) else NatString(n)
  }

  /** `vnode.text` as the reconciler sees it: `createElm` gives a comment
      with undefined text the text '', recorded in `texts`. */
  function TextOf(texts: map<VId, Prim>, v: VNode): Option<Prim>
  {
    if v.id in texts then Some(texts[v.id]) else v.text
  }

  /** The data of the comment node made for a comment vnode. */
  function CommentData(t: Option<Prim>): string
  {
    if t.None? then "" else PrimString(t.value)
  }

  /** The shape the reconciler relies on at every node: text and children
      are not both defined, an element has data (`createElm` reads
      `vnode.data!.hook`), and text and comment vnodes have no children. */
  predicate WellFormed(v: VNode)
    decreases v
  {
    && TextXorChildren(v)
    && (IsElement(v) ==> v.data.Some?)
    && (!IsElement(v) ==> v.children.None?)
    && (v.children.Some? ==>
          forall i :: 0 <= i < |v.children.value.items| && v.children.value.items[i].Some? ==>
            WellFormed(v.children.value.items[i].value))
  }

  /** The host nodes of the non-null slots that have one, in slot order. */
  function LiveElms(elms: map<VId, HostId>, items: seq<Option<VNode>>): (r: seq<HostId>)
    ensures |r| <= |items|
  {
    if items == [] then []
    else (if items[0].Some? && items[0].value.id in elms then [elms[items[0].value.id]] else [])
         + LiveElms(elms, items[1..])
  }

  lemma {:induction false} LiveElmsAppend(elms: map<VId, HostId>, a: seq<Option<VNode>>, b: seq<Option<VNode>>)
    ensures LiveElms(elms, a + b) == LiveElms(elms, a) + LiveElms(elms, b)
  {
    if a == [] {
      assert a + b == b;
    } else {
      assert (a + b)[0] == a[0];
      assert (a + b)[1..] == a[1..] + b;
      LiveElmsAppend(elms, a[1..], b);
    }
  }

  /** One slot contributes its host node, if it is live and has one. */
  lemma LiveElmsOne(elms: map<VId, HostId>, s: Option<VNode>)
    ensures LiveElms(elms, [s]) == if s.Some? && s.value.id in elms then [elms[s.value.id]] else []
  {
    assert [s][1..] == [];
  }

  /** Every listed node is the host node of a live slot. */
  lemma {:induction false} LiveElmsMember(elms: map<VId, HostId>, items: seq<Option<VNode>>, x: HostId)
    requires x in LiveElms(elms, items)
    ensures exists i :: 0 <= i < |items| && items[i].Some? && items[i].value.id in elms && elms[items[i].value.id] == x
  {
    if !(items[0].Some? && items[0].value.id in elms && elms[items[0].value.id] == x) {
      LiveElmsMember(elms, items[1..], x);
      var i :| 0 <= i < |items[1..]| && items[1..][i].Some? && items[1..][i].value.id in elms && elms[items[1..][i].value.id] == x;
      assert items[i + 1] == items[1..][i];
    }
  }

  /** `m'` agrees with `m` on every key outside `changed`: the same keys,
      with the same values. */
  ghost predicate KeptOutside<K(!new), V>(m: map<K, V>, m': map<K, V>, changed: set<K>)
  {
    forall k :: k !in changed ==> (k in m <==> k in m') && (k in m ==> m'[k] == m[k])
  }

  /** The listed host nodes do not depend on entries of vnodes outside the list. */
  lemma {:induction false} LiveElmsKept(elms: map<VId, HostId>, elms': map<VId, HostId>, items: seq<Option<VNode>>, changed: set<VId>)
    requires KeptOutside(elms, elms', changed)
    requires forall i :: 0 <= i < |items| && items[i].Some? ==> items[i].value.id in elms && items[i].value.id !in changed
    ensures LiveElms(elms', items) == LiveElms(elms, items)
  {
    if items != [] {
      LiveElmsKept(elms, elms', items[1..], changed);
    }
  }

  /** The children of `e` as a set (none when `e` is unknown). */
  function KidSet(h: Host, e: HostId): set<HostId>
  {
    if e in h.kids then set c | c in h.kids[e] else {}
  }

  /** The host nodes the subtree of `v` occupies: the host node of every
      vnode in it that has one, and the children of those host nodes
      (which covers the text node of a text-only element and foreign
      children). */
  ghost function Foot(h: Host, elms: map<VId, HostId>, v: VNode): set<HostId>
    decreases v, 1, 0
  {
    (if v.id in elms then {elms[v.id]} + KidSet(h, elms[v.id]) else {})
    + if v.children.None? then {} else FootFrom(h, elms, v, 0)
  }

  /** The footprints of the children of `v` from slot `i` on. */
  ghost function FootFrom(h: Host, elms: map<VId, HostId>, v: VNode, i: nat): set<HostId>
    requires v.children.Some?
    decreases v, 0, |v.children.value.items| - i
  {
    var items := v.children.value.items;
    if i >= |items| then {}
    else (if items[i].Some? then Foot(h, elms, items[i].value) else {}) + FootFrom(h, elms, v, i + 1)
  }

  lemma {:induction false} FootFromChild(h: Host, elms: map<VId, HostId>, v: VNode, j: nat, i: nat)
    requires v.children.Some? && j <= i < |v.children.value.items| && v.children.value.items[i].Some?
    ensures Foot(h, elms, v.children.value.items[i].value) <= FootFrom(h, elms, v, j)
    decreases i - j
  {
    if j < i {
      FootFromChild(h, elms, v, j + 1, i);
    }
  }

  /** A child's footprint is part of its parent's. */
  lemma FootChild(h: Host, elms: map<VId, HostId>, v: VNode, i: nat)
    requires v.children.Some? && i < |v.children.value.items| && v.children.value.items[i].Some?
    ensures Foot(h, elms, v.children.value.items[i].value) <= Foot(h, elms, v)
  {
    FootFromChild(h, elms, v, 0, i);
  }

  /** Every node of the children's footprints is in some child's footprint. */
  lemma {:induction false} FootFromMember(h: Host, elms: map<VId, HostId>, v: VNode, j: nat, x: HostId)
    requires v.children.Some? && x in FootFrom(h, elms, v, j)
    ensures exists i :: j <= i < |v.children.value.items| && v.children.value.items[i].Some?
                        && x in Foot(h, elms, v.children.value.items[i].value)
    decreases |v.children.value.items| - j
  {
    var items := v.children.value.items;
    if !(items[j].Some? && x in Foot(h, elms, items[j].value)) {
      FootFromMember(h, elms, v, j + 1, x);
    }
  }

  /** A child's identities are part of its parent's. */
  lemma IdsChild(v: VNode, i: nat)
    requires v.children.Some? && i < |v.children.value.items| && v.children.value.items[i].Some?
    ensures Ids(v.children.value.items[i].value) <= Ids(v)
  {
  }

  /** The element `e` shows the text `s`: one text node holding it, or no
      child at all when `s` is empty (what `setTextContent(e, '')` leaves). */
  ghost predicate ShowsText(h: Host, e: HostId, s: string)
    requires e in h.kids
  {
    || (h.kids[e] == [] && s == "")
    || (|h.kids[e]| == 1 && h.kids[e][0] in h.info && h.info[h.kids[e][0]] == Text(s))
  }

  /** The host node of `v` shows `v` itself (not its descendants): a text
      vnode a text node with its text, a comment vnode a comment with its
      text, an element vnode an element whose children are the host nodes
      of its non-null children, or its text, or nothing. `pre` lists
      foreign children that precede them (those of an element the patch
      started from). */
  ghost predicate Shows(h: Host, elms: map<VId, HostId>, texts: map<VId, Prim>, v: VNode, pre: seq<HostId>)
    requires v.id in elms && elms[v.id] in h.info && elms[v.id] in h.kids
  {
    var e := elms[v.id];
    var t := TextOf(texts, v);
    match v.sel
    case None => h.info[e].Text? && (t.Some? ==> h.info[e].data == PrimString(t.value))
    case Some(s) =>
      if s == "!" then h.info[e] == Comment(CommentData(t))
      else
        && h.info[e].Element?
        && if v.children.Some? then h.kids[e] == pre + LiveElms(elms, v.children.value.items)
           else if t.Some? then pre == [] && ShowsText(h, e, PrimString(t.value))
           else h.kids[e] == pre
  }

  /** The host subtree under `elms[v.id]` mirrors the vnode tree `v`. */
  ghost predicate Mirrors(h: Host, elms: map<VId, HostId>, texts: map<VId, Prim>, v: VNode, pre: seq<HostId>)
    decreases v
  {
    && v.id in elms && elms[v.id] in h.info && elms[v.id] in h.kids
    && Shows(h, elms, texts, v, pre)
    && (v.children.Some? ==>
          forall i :: 0 <= i < |v.children.value.items| && v.children.value.items[i].Some? ==>
            Mirrors(h, elms, texts, v.children.value.items[i].value, []))
  }

  /** The host nodes of the subtree form a tree: the footprints of sibling
      subtrees are disjoint and do not hold their parent's host node.
      The DOM guarantees this; the host model does not, so it is stated. */
  ghost predicate Separate(h: Host, elms: map<VId, HostId>, v: VNode)
    decreases v
  {
    v.children.Some? ==>
      var items := v.children.value.items;
      && (forall i :: 0 <= i < |items| && items[i].Some? ==>
            v.id in elms && elms[v.id] !in Foot(h, elms, items[i].value) && Separate(h, elms, items[i].value))
      && (forall i, j :: 0 <= i < j < |items| && items[i].Some? && items[j].Some? ==>
            Foot(h, elms, items[i].value) !! Foot(h, elms, items[j].value))
  }

  /** `h'` agrees with `h` on the children and contents of every node
      outside `changed`, and has no new node outside it. */
  ghost predicate Outside(h: Host, h': Host, changed: set<HostId>)
  {
    && KeptOutside(h.kids, h'.kids, changed)
    && KeptOutside(h.info, h'.info, changed)
  }

  /** The ids from `lo` up to `hi`: the host nodes created meanwhile. */
  function Between(lo: nat, hi: nat): (r: set<HostId>)
    ensures forall x :: x in r <==> lo <= x < hi
    decreases hi - lo
  {
    if lo >= hi then {} else {lo} + Between(lo + 1, hi)
  }

  /** The parent of `n`, as a set. */
  function ParentSet(h: Host, n: HostId): set<HostId>
  {
    if ParentNode(h, n).Some? then {ParentNode(h, n).value} else {}
  }

  lemma OutsideCreateNode(h: Host, node: HostNode)
    ensures Outside(h, CreateNode(h, node).0, {h.next})
  {
  }

  lemma OutsideSetAttribute(h: Host, n: HostId, name: string, value: string)
    ensures Outside(h, SetAttribute(h, n, name, value), {n})
  {
  }

  /** `insertBefore` changes only the list of the new parent and that of
      the old one. */
  lemma OutsideInsertBefore(h: Host, p: HostId, n: HostId, ref: Option<HostId>)
    ensures Outside(h, InsertBefore(h, p, n, ref), {p} + ParentSet(h, n))
  {
  }

  lemma OutsideRemoveChild(h: Host, p: HostId, c: HostId)
    ensures Outside(h, RemoveChild(h, p, c), {p})
  {
  }

  lemma OutsideSetTextContent(h: Host, n: HostId, s: string)
    ensures Outside(h, SetTextContent(h, n, s), {n, h.next})
  {
  }

  /** Two changes, one inside `s` and one inside `s'`, make one change
      inside any set covering both. */
  lemma KeptOutsideTrans<K(!new), V>(m: map<K, V>, m': map<K, V>, m'': map<K, V>, s: set<K>, s': set<K>, s'': set<K>)
    requires KeptOutside(m, m', s) && KeptOutside(m', m'', s')
    requires forall k :: k in s || k in s' ==> k in s''
    ensures KeptOutside(m, m'', s'')
  {
  }

  /** Two changes on consecutive ranges of new nodes (and a common extra
      set) are one change on the joined range. */
  lemma KeptBetween<V>(m: map<HostId, V>, m': map<HostId, V>, m'': map<HostId, V>, a: nat, b: nat, c: nat, extra: set<HostId>)
    requires a <= b <= c
    requires KeptOutside(m, m', Between(a, b) + extra) && KeptOutside(m', m'', Between(b, c) + extra)
    ensures KeptOutside(m, m'', Between(a, c) + extra)
  {
  }

  lemma OutsideGrow(h: Host, h': Host, h'': Host, s: set<HostId>, s': set<HostId>, s'': set<HostId>)
    requires Outside(h, h', s) && Outside(h', h'', s')
    requires forall k :: k in s || k in s' ==> k in s''
    ensures Outside(h, h'', s'')
  {
  }

  /** Parent entries made only for new nodes keep the ids still to be
      handed out unused. */
  lemma ParentsBelowKept(h: Host, h': Host)
    requires ParentsBelow(h) && h.next <= h'.next
    requires KeptOutside(h.parent, h'.parent, Between(h.next, h'.next))
    ensures ParentsBelow(h')
  {
  }

  /** A listed host node belongs to the footprint of the slot it comes from. */
  lemma LiveElmsInFoot(h: Host, elms: map<VId, HostId>, items: seq<Option<VNode>>, x: HostId)
    requires x in LiveElms(elms, items)
    ensures exists j :: 0 <= j < |items| && items[j].Some? && x in Foot(h, elms, items[j].value)
  {
    LiveElmsMember(elms, items, x);
  }

  /** The footprint of `v` survives changes to other host nodes and to the
      fields of other vnodes. */
  lemma {:induction false} FootFrame(h: Host, h': Host, elms: map<VId, HostId>, elms': map<VId, HostId>,
                                     v: VNode, hostChanged: set<HostId>, idsChanged: set<VId>)
    requires KeptOutside(h.kids, h'.kids, hostChanged) && Foot(h, elms, v) !! hostChanged
    requires KeptOutside(elms, elms', idsChanged) && Ids(v) !! idsChanged
    ensures Foot(h', elms', v) == Foot(h, elms, v)
    decreases v, 1, 0
  {
    assert v.id in Ids(v);
    if v.id in elms {
      assert elms[v.id] in Foot(h, elms, v);
    }
    if v.children.Some? {
      FootFromFrame(h, h', elms, elms', v, 0, hostChanged, idsChanged);
    }
  }

  lemma {:induction false} FootFromFrame(h: Host, h': Host, elms: map<VId, HostId>, elms': map<VId, HostId>,
                                         v: VNode, i: nat, hostChanged: set<HostId>, idsChanged: set<VId>)
    requires v.children.Some?
    requires KeptOutside(h.kids, h'.kids, hostChanged) && FootFrom(h, elms, v, i) !! hostChanged
    requires KeptOutside(elms, elms', idsChanged) && Ids(v) !! idsChanged
    ensures FootFrom(h', elms', v, i) == FootFrom(h, elms, v, i)
    decreases v, 0, |v.children.value.items| - i
  {
    var items := v.children.value.items;
    if i < |items| {
      if items[i].Some? {
        IdsChild(v, i);
        FootFrame(h, h', elms, elms', items[i].value, hostChanged, idsChanged);
      }
      FootFromFrame(h, h', elms, elms', v, i + 1, hostChanged, idsChanged);
    }
  }

  /** What a vnode shows survives changes to other host nodes and to the
      fields of other vnodes. */
  lemma ShowsFrame(h: Host, h': Host, elms: map<VId, HostId>, elms': map<VId, HostId>,
                   texts: map<VId, Prim>, texts': map<VId, Prim>, v: VNode, pre: seq<HostId>,
                   hostChanged: set<HostId>, idsChanged: set<VId>)
    requires v.id in elms && elms[v.id] in h.info && elms[v.id] in h.kids
    requires Shows(h, elms, texts, v, pre)
    requires Outside(h, h', hostChanged) && Foot(h, elms, v) !! hostChanged
    requires KeptOutside(elms, elms', idsChanged) && KeptOutside(texts, texts', idsChanged) && Ids(v) !! idsChanged
    requires v.children.Some? ==> forall i :: 0 <= i < |v.children.value.items| && v.children.value.items[i].Some? ==>
               v.children.value.items[i].value.id in elms
    ensures v.id in elms' && elms'[v.id] in h'.info && elms'[v.id] in h'.kids
    ensures Shows(h', elms', texts', v, pre)
  {
    var e := elms[v.id];
    assert e in Foot(h, elms, v);
    if v.children.Some? {
      forall i | 0 <= i < |v.children.value.items| && v.children.value.items[i].Some?
        ensures v.children.value.items[i].value.id !in idsChanged
      {
        IdsChild(v, i);
      }
      LiveElmsKept(elms, elms', v.children.value.items, idsChanged);
    }
    if h.kids[e] != [] {
      assert h.kids[e][0] in KidSet(h, e);
    }
  }

  /** A mirrored subtree stays mirrored while the host changes elsewhere
      and other vnodes' fields change. */
  lemma {:induction false} MirrorsFrame(h: Host, h': Host, elms: map<VId, HostId>, elms': map<VId, HostId>,
                                        texts: map<VId, Prim>, texts': map<VId, Prim>, v: VNode, pre: seq<HostId>,
                                        hostChanged: set<HostId>, idsChanged: set<VId>)
    requires Mirrors(h, elms, texts, v, pre)
    requires Outside(h, h', hostChanged) && Foot(h, elms, v) !! hostChanged
    requires KeptOutside(elms, elms', idsChanged) && KeptOutside(texts, texts', idsChanged) && Ids(v) !! idsChanged
    ensures Mirrors(h', elms', texts', v, pre)
    decreases v
  {
    ShowsFrame(h, h', elms, elms', texts, texts', v, pre, hostChanged, idsChanged);
    if v.children.Some? {
      var items := v.children.value.items;
      forall i | 0 <= i < |items| && items[i].Some?
        ensures Mirrors(h', elms', texts', items[i].value, [])
      {
        FootChild(h, elms, v, i);
        IdsChild(v, i);
        MirrorsFrame(h, h', elms, elms', texts, texts', items[i].value, [], hostChanged, idsChanged);
      }
    }
  }

  /** Separateness survives changes to the host and to other vnodes' fields. */
  lemma {:induction false} SeparateFrame(h: Host, h': Host, elms: map<VId, HostId>, elms': map<VId, HostId>,
                                         v: VNode, hostChanged: set<HostId>, idsChanged: set<VId>)
    requires Separate(h, elms, v)
    requires KeptOutside(h.kids, h'.kids, hostChanged) && Foot(h, elms, v) !! hostChanged
    requires KeptOutside(elms, elms', idsChanged) && Ids(v) !! idsChanged
    ensures Separate(h', elms', v)
    decreases v
  {
    if v.children.Some? {
      var items := v.children.value.items;
      forall i | 0 <= i < |items| && items[i].Some?
        ensures Foot(h', elms', items[i].value) == Foot(h, elms, items[i].value)
        ensures Separate(h', elms', items[i].value)
      {
        FootChild(h, elms, v, i);
        IdsChild(v, i);
        FootFrame(h, h', elms, elms', items[i].value, hostChanged, idsChanged);
        SeparateFrame(h, h', elms, elms', items[i].value, hostChanged, idsChanged);
      }
    }
  }

  /** In a consistent host every node of a mirrored footprint has been
      handed out already. */
  lemma {:induction false} FootBelow(h: Host, elms: map<VId, HostId>, texts: map<VId, Prim>, v: VNode, pre: seq<HostId>)
    requires Valid(h) && Mirrors(h, elms, texts, v, pre)
    ensures forall n :: n in Foot(h, elms, v) ==> n < h.next
    decreases v
  {
    forall n | n in Foot(h, elms, v) ensures n < h.next {
      var e := elms[v.id];
      if n == e {
      } else if n in KidSet(h, e) {
        var i :| 0 <= i < |h.kids[e]| && h.kids[e][i] == n;
      } else {
        FootFromMember(h, elms, v, 0, n);
        var i :| 0 <= i < |v.children.value.items| && v.children.value.items[i].Some?
                 && n in Foot(h, elms, v.children.value.items[i].value);
        FootBelow(h, elms, texts, v.children.value.items[i].value, []);
      }
    }
  }
}
