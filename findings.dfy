/** Where `addVnodes` puts the new children left after the loop of
    `updateChildren`, with the reference node computed as written and as
    corrected. */
module Placement {
  import opened Wrappers
  import opened VNodes
  import opened HostTree
  import opened Hooks
  import opened Trees
  import opened States
  import opened Creation
  import opened Removal
  import opened Diff
  import Patching

  /** The node `createElm` returns exists, is in no list, and the list of
      an existing node `p` is unchanged. */
  lemma CreatedApart(modules: seq<Module>, s: State, p: HostId, ch: VNode)
    requires Valid(s.host) && p in s.host.kids
    ensures var made := CreateElm(modules, s, ch);
            && Valid(made.0.host) && p in made.0.host.kids && made.0.host.kids[p] == s.host.kids[p]
            && made.1 in made.0.host.info && ParentNode(made.0.host, made.1).None?
  {
    ValidParentsBelow(s.host);
    CreateElmFrame(modules, s, ch);
    CreateElmValid(modules, s, ch);
    var made := CreateElm(modules, s, ch);
    assert p !in Between(s.host.next, made.0.host.next);
  }

  /** Inserting a node that is in no list, with the head of `b` as
      reference or none when `b` is empty, puts it between `a` and `b`. */
  lemma InsertBetween(h: Host, p: HostId, n: HostId, a: seq<HostId>, b: seq<HostId>)
    requires Valid(h) && p in h.kids && h.kids[p] == a + b
    requires n in h.info && ParentNode(h, n).None?
    ensures var r := InsertBefore(h, p, n, if b == [] then None else Some(b[0]));
            Valid(r) && p in r.kids && r.kids[p] == a + [n] + b
  {
    var ref := if b == [] then None else Some(b[0]);
    Unlisted(h, n);
    assert n !in h.kids[p];
    if b != [] {
      assert h.kids[p][|a|] == b[0];
    }
    assert CanInsert(h, p, n, ref) && ref != Some(n);
    Patching.InsertUnlisted(h, p, n, ref);
    InsertAtBetween(a, b, n);
  }

  /** The list-level step of `InsertBetween`. */
  lemma InsertAtBetween(a: seq<HostId>, b: seq<HostId>, n: HostId)
    requires NoDup(a + b)
    ensures InsertAt(a + b, n, if b == [] then None else Some(b[0])) == a + [n] + b
  {
    if b != [] {
      assert a + b == a + [b[0]] + b[1..];
      NoDupSplit(a + b, a, b[0], b[1..]);
      InsertAtSplit(a, b[0], b[1..], n);
      assert [b[0]] + b[1..] == b;
    } else {
      assert a + b == a;
    }
  }

  /** Adding one child with the head of `b` as reference, or none when `b`
      is empty, puts its node between `a` and `b`. */
  lemma AddOneBetween(modules: seq<Module>, s: State, p: HostId, ch: VNode, a: seq<HostId>, b: seq<HostId>)
    requires Valid(s.host) && p in s.host.kids && s.host.kids[p] == a + b
    ensures var made := CreateElm(modules, s, ch);
            var r := AddOne(modules, s, p, if b == [] then None else Some(b[0]), ch);
            && Valid(r.host) && p in r.host.kids
            && r.host.kids[p] == a + [made.1] + b
  {
    var made := CreateElm(modules, s, ch);
    CreatedApart(modules, s, p, ch);
    InsertBetween(made.0.host, p, made.1, a, b);
  }

  /** A null slot right after the window, then a child whose node is `x`:
      the reference as written is null, the corrected reference is `x`. */
  lemma BeforeSkipsNull(s: State, newCh: seq<Option<VNode>>, ne: int, x: HostId)
    requires 0 <= ne + 1 && ne + 2 < |newCh|
    requires newCh[ne + 1].None? && newCh[ne + 2].Some? && newCh[ne + 2].value.id in s.elms && s.elms[newCh[ne + 2].value.id] == x
    ensures BeforeAsWritten(s, newCh, ne) == None
    ensures Before(s, newCh, ne) == Some(x)
  {
    var rest := newCh[ne + 1..];
    assert rest[1..] == newCh[ne + 2..];
    assert rest[1..][1..] == newCh[ne + 3..];
    assert LiveElms(s.elms, rest) == LiveElms(s.elms, rest[1..]);
    assert LiveElms(s.elms, rest[1..]) == [x] + LiveElms(s.elms, rest[1..][1..]);
  }

  /** With that reference, the new node goes to the end of the parent's
      list, after `x` and everything that follows it; with the corrected
      reference, it goes right before `x`, where its slot in the new children says it
      belongs. */
  lemma BeforeAsWrittenAppends(modules: seq<Module>, s: State, p: HostId,
                               newCh: seq<Option<VNode>>, ne: int, ch: VNode,
                               a: seq<HostId>, x: HostId, b: seq<HostId>)
    requires Valid(s.host) && p in s.host.kids && s.host.kids[p] == a + [x] + b
    requires 0 <= ne + 1 && ne + 2 < |newCh|
    requires newCh[ne + 1].None? && newCh[ne + 2].Some? && newCh[ne + 2].value.id in s.elms && s.elms[newCh[ne + 2].value.id] == x
    ensures var made := CreateElm(modules, s, ch).1;
            var asWritten := AddOne(modules, s, p, BeforeAsWritten(s, newCh, ne), ch).host;
            var intended := AddOne(modules, s, p, Before(s, newCh, ne), ch).host;
            && p in asWritten.kids && asWritten.kids[p] == a + [x] + b + [made]
            && p in intended.kids && intended.kids[p] == a + [made] + [x] + b
  {
    BeforeSkipsNull(s, newCh, ne, x);
    AddOneBetween(modules, s, p, ch, a + [x] + b, []);
    AddOneBetween(modules, s, p, ch, a, [x] + b);
    assert a + [x] + b + [] == a + [x] + b;
    assert a + ([x] + b) == a + [x] + b;
    assert a + [CreateElm(modules, s, ch).1] + ([x] + b) == a + [CreateElm(modules, s, ch).1] + [x] + b;
  }
}
