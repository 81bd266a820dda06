/** The host tree the `DOMAPI` adapter works on, modelled abstractly: every
    node has an ordered list of child ids. The mutations follow the DOM
    Standard's mutation algorithms (section 4.2.3): inserting a node that is
    already in the tree moves it, and a null reference child means "append".
    `parent` is an index kept by insertion: a node's parent is the node
    whose list holds it, and `parent` says which one that is. */
module HostTree {
  import opened Wrappers
  import opened VNodes

  /** What a host node is: an element with its tag, namespace and
      attributes, a text node or a comment with their data. */
  datatype HostNode =
    | Element(tag: string, ns: Option<string>, attrs: map<string, string>)
    | Text(data: string)
    | Comment(data: string)

  /** The whole host: children lists, the parent index, node contents, and
      the next free id. */
  datatype Host = Host(
    kids: map<HostId, seq<HostId>>,
    parent: map<HostId, HostId>,
    info: map<HostId, HostNode>,
    next: HostId)

  predicate NoDup<T(==)>(s: seq<T>)
  {
    forall i, j :: 0 <= i < j < |s| ==> s[i] != s[j]
  }

  /** The consistency of the host: every node has a children list and an id
      below `next`, lists have no repeats, a listed node's `parent` entry
      names the list holding it, so no node is in two lists, and `parent`
      only has entries for existing nodes. */
  ghost predicate Valid(h: Host)
  {
    && (forall n :: n in h.info ==> n in h.kids)
    && (forall p :: p in h.kids ==> p in h.info && p < h.next && NoDup(h.kids[p]))
    && (forall p, i :: p in h.kids && 0 <= i < |h.kids[p]| ==> h.kids[p][i] in h.info && h.kids[p][i] in h.parent && h.parent[h.kids[p][i]] == p)
    && (forall c :: c in h.parent ==> c in h.info)
  }

  /** Only nodes below `next` have a parent entry: the ids still to be
      handed out are unused. */
  ghost predicate ParentsBelow(h: Host)
  {
    forall c :: c in h.parent ==> c < h.next
  }

  lemma ValidParentsBelow(h: Host)
    requires Valid(h)
    ensures ParentsBelow(h)
  {
  }

  /** `s` without `x`. */
  function Without(s: seq<HostId>, x: HostId): (r: seq<HostId>)
    ensures forall y :: y in r <==> y in s && y != x
  {
    if s == [] then [] else (if s[0] == x then [] else [s[0]]) + Without(s[1..], x)
  }

  lemma {:induction false} WithoutAbsent(s: seq<HostId>, x: HostId)
    requires x !in s
    ensures Without(s, x) == s
  {
    if s != [] { WithoutAbsent(s[1..], x); }
  }

  /** Removing the single occurrence of `x` from `a + [x] + b`. */
  lemma {:induction false} WithoutSplit(a: seq<HostId>, x: HostId, b: seq<HostId>)
    requires x !in a && x !in b
    ensures Without(a + [x] + b, x) == a + b
  {
    if a == [] {
      assert a + [x] + b == [x] + b;
      assert ([x] + b)[1..] == b;
      WithoutAbsent(b, x);
    } else {
      assert (a + [x] + b)[1..] == a[1..] + [x] + b;
      WithoutSplit(a[1..], x, b);
      assert a + b == [a[0]] + (a[1..] + b);
    }
  }

  lemma {:induction false} WithoutNoDup(s: seq<HostId>, x: HostId)
    requires NoDup(s)
    ensures NoDup(Without(s, x))
  {
    if s != [] {
      WithoutNoDup(s[1..], x);
      var r := Without(s, x);
      if s[0] != x {
        assert r == [s[0]] + Without(s[1..], x);
        assert s[0] !in s[1..];
      }
    }
  }

  /** The position of `x` in `s`. */
  function Pos(s: seq<HostId>, x: HostId): (i: nat)
    requires x in s
    ensures i < |s| && s[i] == x && x !in s[..i]
  {
    if s[0] == x then 0 else 1 + Pos(s[1..], x)
  }

  lemma PosSplit(a: seq<HostId>, x: HostId, b: seq<HostId>)
    requires x !in a
    ensures Pos(a + [x] + b, x) == |a|
  {
    var s := a + [x] + b;
    var i := Pos(s, x);
    assert s[|a|] == x;
    assert forall k :: 0 <= k < |a| ==> s[k] == a[k];
  }

  /** `s` with `x` put before `ref`, or at the end when `ref` is null. */
  function InsertAt(s: seq<HostId>, x: HostId, ref: Option<HostId>): (r: seq<HostId>)
    ensures forall y :: y in r <==> y in s || y == x
  {
    if ref.None? || ref.value !in s then s + [x] else var i := Pos(s, ref.value); s[..i] + [x] + s[i..]
  }

  lemma InsertAtSplit(a: seq<HostId>, y: HostId, b: seq<HostId>, x: HostId)
    requires y !in a
    ensures InsertAt(a + [y] + b, x, Some(y)) == a + [x] + [y] + b
  {
    PosSplit(a, y, b);
    var s := a + [y] + b;
    assert s[..|a|] == a;
    assert s[|a|..] == [y] + b;
  }

  lemma InsertAtNoDup(s: seq<HostId>, x: HostId, ref: Option<HostId>)
    requires NoDup(s) && x !in s
    ensures NoDup(InsertAt(s, x, ref))
  {
    if ref.Some? && ref.value in s {
      var i := Pos(s, ref.value);
      var r := s[..i] + [x] + s[i..];
      forall a, b | 0 <= a < b < |r| ensures r[a] != r[b] {
        if a < i && b > i { assert r[a] == s[a] && r[b] == s[b - 1]; }
        else if a > i { assert r[a] == s[a - 1] && r[b] == s[b - 1]; }
        else if b < i {}
        else if a == i { assert r[b] in s; }
        else { assert r[a] in s; }
      }
    }
  }

  /** `parentNode`: the node whose list holds `n`, if any. */
  function ParentNode(h: Host, n: HostId): (r: Option<HostId>)
    ensures r.Some? ==> r.value in h.kids && n in h.kids[r.value]
  {
    if n in h.parent && h.parent[n] in h.kids && n in h.kids[h.parent[n]] then Some(h.parent[n]) else None
  }

  /** In a consistent host, the list that holds a node is its parent. */
  lemma ParentOfListed(h: Host, p: HostId, c: HostId)
    requires Valid(h) && p in h.kids && c in h.kids[p]
    ensures ParentNode(h, c) == Some(p) && c in h.info
  {
    var i :| 0 <= i < |h.kids[p]| && h.kids[p][i] == c;
  }

  /** A node without a parent is in no list. */
  lemma Unlisted(h: Host, n: HostId)
    requires Valid(h) && ParentNode(h, n).None?
    ensures forall p :: p in h.kids ==> n !in h.kids[p]
  {
  }

  /** `nextSibling`. */
  function NextSibling(h: Host, n: HostId): (r: Option<HostId>)
    ensures r.Some? ==> ParentNode(h, n).Some? && r.value in h.kids[ParentNode(h, n).value]
  {
    match ParentNode(h, n)
    case None => None
    case Some(p) =>
      var s := h.kids[p];
      var i := Pos(s, n);
      if i + 1 < |s| then Some(s[i + 1]) else None
  }

  /** The next sibling of `x` in the list `a + [x] + b` is the head of `b`. */
  lemma NextSiblingSplit(h: Host, p: HostId, a: seq<HostId>, x: HostId, b: seq<HostId>)
    requires Valid(h) && p in h.kids && h.kids[p] == a + [x] + b
    ensures NextSibling(h, x) == if b == [] then None else Some(b[0])
  {
    assert x in h.kids[p];
    ParentOfListed(h, p, x);
    forall j | 0 <= j < |a| ensures a[j] != x {
      assert a[j] == h.kids[p][j] && h.kids[p][|a|] == x;
    }
    PosSplit(a, x, b);
    if b != [] {
      assert h.kids[p][|a| + 1] == b[0];
    }
  }

  /** A fresh node with no children: what `createElement`,
      `createElementNS`, `createTextNode` and `createComment` return. */
  function CreateNode(h: Host, node: HostNode): (Host, HostId)
  {
    (Host(h.kids[h.next := []], h.parent, h.info[h.next := node], h.next + 1), h.next)
  }

  /** `createElement(tag)` / `createElementNS(ns, tag)`: no attributes yet. */
  function CreateElement(h: Host, tag: string, ns: Option<string>): (Host, HostId)
  {
    CreateNode(h, Element(tag, ns, map[]))
  }

  /** The fresh node is new: it has no parent and is in no list. */
  lemma CreateNodeSpec(h: Host, node: HostNode)
    requires Valid(h)
    ensures var r := CreateNode(h, node);
            && Valid(r.0) && r.1 == h.next && r.1 !in h.info && r.1 !in h.parent
            && ParentNode(r.0, r.1).None?
            && forall p :: p in h.kids ==> r.1 !in h.kids[p]
  {
  }

  /** `setAttribute(name, value)`; only elements have attributes. */
  function SetAttribute(h: Host, n: HostId, name: string, value: string): Host
  {
    if n in h.info && h.info[n].Element? then
      h.(info := h.info[n := h.info[n].(attrs := h.info[n].attrs[name := value])])
    else h
  }

  lemma SetAttributeSpec(h: Host, n: HostId, name: string, value: string)
    requires Valid(h) && n in h.info && h.info[n].Element?
    ensures var r := SetAttribute(h, n, name, value);
            && Valid(r) && r.kids == h.kids && r.parent == h.parent && r.next == h.next
            && r.info[n].attrs == h.info[n].attrs[name := value]
  {
  }

  /** Removes `n` from the list holding it, if any. */
  function Detach(h: Host, n: HostId): Host
  {
    match ParentNode(h, n)
    case None => h
    case Some(p) => h.(kids := h.kids[p := Without(h.kids[p], n)])
  }

  lemma DetachSpec(h: Host, n: HostId)
    requires Valid(h)
    ensures var r := Detach(h, n);
            && Valid(r) && r.info == h.info && r.next == h.next && r.parent == h.parent
            && ParentNode(r, n).None?
            && r.kids.Keys == h.kids.Keys
  {
    match ParentNode(h, n)
    case None =>
    case Some(p) =>
      WithoutNoDup(h.kids[p], n);
      ShrinkList(h, p, Without(h.kids[p], n));
  }

  /** Dropping children from a list keeps the host consistent. */
  lemma ShrinkList(h: Host, p: HostId, list: seq<HostId>)
    requires Valid(h) && p in h.kids && NoDup(list) && forall y :: y in list ==> y in h.kids[p]
    ensures Valid(h.(kids := h.kids[p := list]))
  {
    forall i | 0 <= i < |list| ensures list[i] in h.info && list[i] in h.parent && h.parent[list[i]] == p {
      assert list[i] in list;
      ParentOfListed(h, p, list[i]);
    }
  }

  /** After `n` is detached, the list of `p` is its old list without `n`,
      whether or not `n` was a child of `p`. */
  lemma DetachedList(h: Host, p: HostId, n: HostId)
    requires Valid(h) && p in h.kids
    ensures Detach(h, n).kids[p] == Without(h.kids[p], n)
  {
    if ParentNode(h, n) != Some(p) {
      assert n !in h.kids[p];
      WithoutAbsent(h.kids[p], n);
    }
  }

  /** The reference child the DOM pre-insert algorithm uses: `ref`, unless
      it is the node itself, in which case its next sibling. */
  function EffectiveRef(h: Host, n: HostId, ref: Option<HostId>): Option<HostId>
  {
    if ref == Some(n) then NextSibling(h, n) else ref
  }

  /** The effective reference child is a child of `p` other than `n`. */
  lemma EffectiveRefIn(h: Host, p: HostId, n: HostId, ref: Option<HostId>)
    requires Valid(h) && p in h.kids
    requires ref.Some? ==> ref.value in h.kids[p]
    ensures EffectiveRef(h, n, ref).Some? ==> EffectiveRef(h, n, ref).value in Without(h.kids[p], n)
  {
    var ref' := EffectiveRef(h, n, ref);
    if ref == Some(n) && ref'.Some? {
      ParentOfListed(h, p, n);
      var s := h.kids[p];
      var i := Pos(s, n);
      assert ref'.value == s[i + 1];
      assert s[i + 1] != s[i];
    }
  }

  /** Whether `insertBefore(p, n, ref)` goes through: `p` and `n` exist
      and `ref` is null or a child of `p` (otherwise the DOM throws). */
  predicate CanInsert(h: Host, p: HostId, n: HostId, ref: Option<HostId>)
  {
    p in h.kids && n in h.info && (ref.Some? ==> ref.value in h.kids[p])
  }

  /** `insertBefore(p, n, ref)`: `n` leaves the list holding it (if any)
      and is put into `p`'s list before `ref`, or at the end when `ref` is
      null. Where the DOM throws, the host is left as it is. */
  function InsertBefore(h: Host, p: HostId, n: HostId, ref: Option<HostId>): Host
  {
    if !CanInsert(h, p, n, ref) then h
    else
      var d := Detach(h, n);
      d.(kids := d.kids[p := InsertAt(Without(h.kids[p], n), n, EffectiveRef(h, n, ref))],
         parent := d.parent[n := p])
  }

  /** `n` is put into `p`'s list before the effective reference, after
      leaving its old list; the host stays consistent. */
  lemma InsertBeforeSpec(h: Host, p: HostId, n: HostId, ref: Option<HostId>)
    requires Valid(h) && CanInsert(h, p, n, ref)
    ensures var r := InsertBefore(h, p, n, ref);
            && Valid(r) && r.info == h.info && r.next == h.next && r.parent == h.parent[n := p]
            && (EffectiveRef(h, n, ref).Some? ==> EffectiveRef(h, n, ref).value in Without(h.kids[p], n))
            && r.kids == Detach(h, n).kids[p := InsertAt(Without(h.kids[p], n), n, EffectiveRef(h, n, ref))]
  {
    DetachSpec(h, n);
    DetachedList(h, p, n);
    EffectiveRefIn(h, p, n, ref);
    WithoutNoDup(h.kids[p], n);
    var list := InsertAt(Without(h.kids[p], n), n, EffectiveRef(h, n, ref));
    InsertAtNoDup(Without(h.kids[p], n), n, EffectiveRef(h, n, ref));
    Attach(Detach(h, n), p, n, list);
  }

  /** Giving the node `n`, which is in no list, the parent `p` whose list
      becomes `list` keeps the host consistent. */
  lemma Attach(d: Host, p: HostId, n: HostId, list: seq<HostId>)
    requires Valid(d) && p in d.kids && n in d.info && ParentNode(d, n).None?
    requires NoDup(list) && forall y :: y in list <==> y in d.kids[p] || y == n
    ensures Valid(d.(kids := d.kids[p := list], parent := d.parent[n := p]))
  {
    Unlisted(d, n);
    forall i | 0 <= i < |list| && list[i] != n ensures list[i] in d.info && list[i] in d.parent && d.parent[list[i]] == p {
      assert list[i] in list;
      ParentOfListed(d, p, list[i]);
    }
  }

  /** `appendChild(p, n)`. */
  function AppendChild(h: Host, p: HostId, n: HostId): Host
  {
    InsertBefore(h, p, n, None)
  }

  /** Appending a node that is in no list puts it last in `p`'s list and
      changes no other list. */
  lemma AppendUnlisted(h: Host, p: HostId, n: HostId)
    requires Valid(h) && p in h.kids && n in h.info && ParentNode(h, n).None?
    ensures var r := AppendChild(h, p, n);
            && Valid(r) && r.info == h.info && r.next == h.next && r.parent == h.parent[n := p]
            && r.kids == h.kids[p := h.kids[p] + [n]]
  {
    InsertBeforeSpec(h, p, n, None);
    Unlisted(h, n);
    WithoutAbsent(h.kids[p], n);
  }

  /** `removeChild(p, c)`; the DOM throws when `c` is not a child of `p`. */
  function RemoveChild(h: Host, p: HostId, c: HostId): Host
  {
    if p in h.kids && c in h.kids[p] then h.(kids := h.kids[p := Without(h.kids[p], c)]) else h
  }

  lemma RemoveChildSpec(h: Host, p: HostId, c: HostId)
    requires Valid(h) && p in h.kids && c in h.kids[p]
    ensures var r := RemoveChild(h, p, c);
            && Valid(r) && r.info == h.info && r.next == h.next && r.parent == h.parent
            && r.kids == h.kids[p := Without(h.kids[p], c)]
  {
    WithoutNoDup(h.kids[p], c);
    ShrinkList(h, p, Without(h.kids[p], c));
  }

  /** `setTextContent(n, s)`: on an element, all children are removed and,
      when `s` is not empty, replaced by one new text node holding `s`; on
      a text or comment node, its data becomes `s`. */
  function SetTextContent(h: Host, n: HostId, s: string): Host
  {
    if n !in h.info then h
    else if !h.info[n].Element? then h.(info := h.info[n := h.info[n].(data := s)])
    else if s == "" then h.(kids := h.kids[n := []])
    else OnlyText(h.(kids := h.kids[n := []]), n, s)
  }

  /** `n` with a new text node holding `s` as its only child. */
  function OnlyText(h: Host, n: HostId, s: string): Host
  {
    Host(h.kids[n := [h.next]][h.next := []], h.parent[h.next := n], h.info[h.next := Text(s)], h.next + 1)
  }

  lemma SetTextContentSpec(h: Host, n: HostId, s: string)
    requires Valid(h) && n in h.info
    ensures Valid(SetTextContent(h, n, s)) && SetTextContent(h, n, s).next >= h.next
  {
    if h.info[n].Element? {
      if s == "" {
        ShrinkList(h, n, []);
      } else {
        ShrinkList(h, n, []);
        OnlyTextValid(h.(kids := h.kids[n := []]), n, s);
      }
    }
  }

  /** Giving the childless `n` a new text node as its only child keeps the
      host consistent. */
  lemma OnlyTextValid(h: Host, n: HostId, s: string)
    requires Valid(h) && n in h.info && h.kids[n] == []
    ensures Valid(Host(h.kids[n := [h.next]][h.next := []], h.parent[h.next := n], h.info[h.next := Text(s)], h.next + 1))
  {
    var r := Host(h.kids[n := [h.next]][h.next := []], h.parent[h.next := n], h.info[h.next := Text(s)], h.next + 1);
    assert h.next !in h.kids;
    forall p | p in r.kids ensures p in r.info && p < r.next && NoDup(r.kids[p]) {}
    forall p, c | p in r.kids && c in r.kids[p] ensures c in r.info && c in r.parent && r.parent[c] == p {
      if p != n && p != h.next { assert c in h.kids[p]; assert c != h.next; }
    }
  }

  /** The element's `id` and `className` getters: the attribute, or "". */
  function AttrOr(h: Host, n: HostId, name: string): string
    requires n in h.info && h.info[n].Element?
  {
    if name in h.info[n].attrs then h.info[n].attrs[name] else ""
  }
}
