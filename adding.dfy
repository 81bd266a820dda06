/** Where `addVnodes` (src/package/init.ts:157-173) puts what it creates:
    the host nodes of the added slots land, in slot order, right before the
    reference node. */
module Adding {
  import opened Wrappers
  import opened VNodes
  import opened HostTree
  import opened Hooks
  import opened Events
  import opened Trees
  import opened States
  import opened KeyMaps
  import opened Creation
  import opened Diff
  import opened DiffFrame
  import opened Placement

  /** The node `createElm(v)` returns is new, in no list, and is what
      `v.elm` now holds; the rest of the host and the fields of vnodes
      outside `v`'s tree are as they were. */
  lemma CreatedRoot(modules: seq<Module>, s: State, v: VNode)
    requires Valid(s.host) && DistinctIds(v)
    ensures var made := CreateElm(modules, s, v);
            var born := Between(s.host.next, made.0.host.next);
            && Valid(made.0.host) && made.1 == s.host.next < made.0.host.next
            && made.1 in made.0.host.info && ParentNode(made.0.host, made.1).None?
            && Outside(s.host, made.0.host, born)
            && KeptOutside(s.elms, made.0.elms, Ids(v)) && KeptOutside(s.texts, made.0.texts, Ids(v))
            && v.id in made.0.elms && made.0.elms[v.id] == made.1
  {
    var made := CreateElm(modules, s, v);
    ValidParentsBelow(s.host);
    CreateElmFrame(modules, s, v);
    CreateElmValid(modules, s, v);
    if v.sel.Some? && v.sel != Some("!") {
      var s1 := s.(trace := s.trace + NodeEvents(v, InitHook));
      var o := OpenElement(modules, s1, v);
      OpenElementFrame(modules, s1, v);
      CreateContentFrame(modules, o.0, v, o.1);
      RootNotInContent(v);
    }
  }

  /** The identities of a run of slots, peeled at its first slot. */
  lemma IdsOfCons(items: seq<Option<VNode>>, i: int, end: int)
    requires 0 <= i <= end < |items|
    ensures IdsOf(items[i..end + 1]) == (if items[i].Some? then Ids(items[i].value) else {}) + IdsOf(items[i + 1..end + 1])
  {
    var a, b := items[i..end + 1], items[i + 1..end + 1];
    assert a[0] == items[i];
    forall x | x in IdsOf(b) ensures x in IdsOf(a) {
      var j :| 0 <= j < |b| && b[j].Some? && x in Ids(b[j].value);
      assert a[j + 1] == b[j];
    }
    forall x | x in IdsOf(a) ensures x in (if items[i].Some? then Ids(items[i].value) else {}) + IdsOf(b) {
      var j :| 0 <= j < |a| && a[j].Some? && x in Ids(a[j].value);
      if j > 0 {
        assert b[j - 1] == a[j];
      }
    }
  }

  /** One round of `addVnodes`: the new node goes between `A` and `B`. */
  lemma AddOneBetweenFacts(modules: seq<Module>, s: State, p: HostId, ch: VNode, A: seq<HostId>, B: seq<HostId>)
    requires Valid(s.host) && p in s.host.kids && s.host.kids[p] == A + B && DistinctIds(ch)
    ensures var r := AddOne(modules, s, p, if B == [] then None else Some(B[0]), ch);
            && Valid(r.host) && s.host.next <= r.host.next && p in r.host.kids
            && ch.id in r.elms && r.elms[ch.id] == s.host.next && r.host.kids[p] == A + [r.elms[ch.id]] + B
            && Outside(s.host, r.host, {p} + Between(s.host.next, r.host.next))
            && KeptOutside(s.elms, r.elms, Ids(ch))
  {
    var ref := if B == [] then None else Some(B[0]);
    var made := CreateElm(modules, s, ch);
    var n := made.1;
    CreatedRoot(modules, s, ch);
    assert p !in Between(s.host.next, made.0.host.next);
    InsertBetween(made.0.host, p, n, A, B);
    OutsideInsertBefore(made.0.host, p, n, ref);
    var s1 := AddOne(modules, s, p, ref, ch);
    assert s1 == made.0.(host := InsertBefore(made.0.host, p, n, ref));
    OutsideGrow(s.host, made.0.host, s1.host, Between(s.host.next, made.0.host.next), {p},
                {p} + Between(s.host.next, s1.host.next));
  }

  /** Composing the first round of `addVnodes` with the rest. */
  lemma AddedFirst(s: State, s1: State, r: State, p: HostId, items: seq<Option<VNode>>, i: int, end: int,
                   A: seq<HostId>, B: seq<HostId>)
    requires 0 <= i <= end < |items| && items[i].Some?
    requires var ch := items[i].value;
             && s.host.next <= s1.host.next && p in s1.host.kids
             && ch.id in s1.elms && s1.elms[ch.id] == s.host.next && s1.host.kids[p] == A + [s1.elms[ch.id]] + B
             && Outside(s.host, s1.host, {p} + Between(s.host.next, s1.host.next))
             && KeptOutside(s.elms, s1.elms, Ids(ch))
             && ch.id !in IdsOf(items[i + 1..end + 1])
    requires var n := s1.elms[items[i].value.id];
             && s1.host.next <= r.host.next && p in r.host.kids
             && Outside(s1.host, r.host, {p} + Between(s1.host.next, r.host.next))
             && KeptOutside(s1.elms, r.elms, IdsOf(items[i + 1..end + 1]))
             && (forall j :: i + 1 <= j <= end && items[j].Some? ==> items[j].value.id in r.elms && r.elms[items[j].value.id] >= s1.host.next)
             && r.host.kids[p] == A + [n] + LiveElms(r.elms, items[i + 1..end + 1]) + B
    ensures && s.host.next <= r.host.next
            && Outside(s.host, r.host, {p} + Between(s.host.next, r.host.next))
            && KeptOutside(s.elms, r.elms, IdsOf(items[i..end + 1]))
            && (forall j :: i <= j <= end && items[j].Some? ==> items[j].value.id in r.elms && r.elms[items[j].value.id] >= s.host.next)
            && r.host.kids[p] == A + LiveElms(r.elms, items[i..end + 1]) + B
  {
    var ch := items[i].value;
    var n := s1.elms[ch.id];
    var rest := items[i + 1..end + 1];
    IdsOfCons(items, i, end);
    OutsideGrow(s.host, s1.host, r.host, {p} + Between(s.host.next, s1.host.next),
                {p} + Between(s1.host.next, r.host.next), {p} + Between(s.host.next, r.host.next));
    KeptOutsideTrans(s.elms, s1.elms, r.elms, Ids(ch), IdsOf(rest), IdsOf(items[i..end + 1]));
    assert r.elms[ch.id] == n;
    LiveCons(r.elms, items, i, end, n, A, B);
  }

  /** The node of slot `i` followed by those of the slots after it are the
      nodes of the slots from `i` on. */
  lemma LiveCons(E: map<VId, HostId>, items: seq<Option<VNode>>, i: int, end: int, n: HostId, A: seq<HostId>, B: seq<HostId>)
    requires 0 <= i <= end < |items| && items[i].Some? && items[i].value.id in E && E[items[i].value.id] == n
    ensures A + [n] + LiveElms(E, items[i + 1..end + 1]) + B == A + LiveElms(E, items[i..end + 1]) + B
  {
    var rest := items[i + 1..end + 1];
    assert items[i..end + 1] == [items[i]] + rest;
    LiveElmsAppend(E, [items[i]], rest);
    LiveElmsOne(E, items[i]);
    var L := LiveElms(E, rest);
    assert A + [n] + L + B == A + ([n] + L) + B;
  }

  /** The slot `i` shares no identity with the slots after it. */
  lemma RestApart(items: seq<Option<VNode>>, i: int, end: int)
    requires 0 <= i <= end < |items| && items[i].Some?
    requires forall j, j' :: i <= j < j' <= end && items[j].Some? && items[j'].Some? ==> Ids(items[j].value) !! Ids(items[j'].value)
    ensures items[i].value.id !in IdsOf(items[i + 1..end + 1])
  {
    var rest := items[i + 1..end + 1];
    forall j | 0 <= j < |rest| && rest[j].Some? ensures items[i].value.id !in Ids(rest[j].value) {
      assert rest[j] == items[i + 1 + j];
    }
  }

  /** `addVnodes(p, before, items, i, end)` with `before` the head of `B`
      (or null when `B` is empty) and `p`'s list `A + B`: afterwards the
      list is `A`, the host nodes of the added slots in slot order, then
      `B`; only `p`'s list and the new nodes changed, and every added slot
      has its `elm`. */
  lemma {:induction false} AddVnodesBetween(modules: seq<Module>, s: State, p: HostId,
                                            items: seq<Option<VNode>>, i: int, end: int,
                                            A: seq<HostId>, B: seq<HostId>)
    requires 0 <= i <= end + 1 <= |items|
    requires Valid(s.host) && p in s.host.kids && s.host.kids[p] == A + B
    requires forall j :: i <= j <= end && items[j].Some? ==> DistinctIds(items[j].value)
    requires forall j, j' :: i <= j < j' <= end && items[j].Some? && items[j'].Some? ==> Ids(items[j].value) !! Ids(items[j'].value)
    ensures var r := AddVnodes(modules, s, p, if B == [] then None else Some(B[0]), items, i, end);
            && Valid(r.host) && s.host.next <= r.host.next && p in r.host.kids
            && Outside(s.host, r.host, {p} + Between(s.host.next, r.host.next))
            && KeptOutside(s.elms, r.elms, IdsOf(items[i..end + 1]))
            && (forall j :: i <= j <= end && items[j].Some? ==> items[j].value.id in r.elms && r.elms[items[j].value.id] >= s.host.next)
            && r.host.kids[p] == A + LiveElms(r.elms, items[i..end + 1]) + B
    decreases end - i, 2
  {
    if i > end {
      assert items[i..end + 1] == [];
    } else if items[i].Some? {
      AddVnodesFirst(modules, s, p, items, i, end, A, B);
    } else {
      AddVnodesSkip(modules, s, p, items, i, end, A, B);
    }
  }

  /** `AddVnodesBetween` when slot `i` is null. */
  lemma {:induction false} AddVnodesSkip(modules: seq<Module>, s: State, p: HostId,
                                         items: seq<Option<VNode>>, i: int, end: int,
                                         A: seq<HostId>, B: seq<HostId>)
    requires 0 <= i <= end < |items| && items[i].None?
    requires Valid(s.host) && p in s.host.kids && s.host.kids[p] == A + B
    requires forall j :: i <= j <= end && items[j].Some? ==> DistinctIds(items[j].value)
    requires forall j, j' :: i <= j < j' <= end && items[j].Some? && items[j'].Some? ==> Ids(items[j].value) !! Ids(items[j'].value)
    ensures var r := AddVnodes(modules, s, p, if B == [] then None else Some(B[0]), items, i, end);
            && Valid(r.host) && s.host.next <= r.host.next && p in r.host.kids
            && Outside(s.host, r.host, {p} + Between(s.host.next, r.host.next))
            && KeptOutside(s.elms, r.elms, IdsOf(items[i..end + 1]))
            && (forall j :: i <= j <= end && items[j].Some? ==> items[j].value.id in r.elms && r.elms[items[j].value.id] >= s.host.next)
            && r.host.kids[p] == A + LiveElms(r.elms, items[i..end + 1]) + B
    decreases end - i, 0
  {
    var ref := if B == [] then None else Some(B[0]);
    var r := AddVnodes(modules, s, p, ref, items, i + 1, end);
    assert AddVnodes(modules, s, p, ref, items, i, end) == r;
    AddVnodesBetween(modules, s, p, items, i + 1, end, A, B);
    SkippedFirst(s.elms, r, p, items, i, end, A, B);
  }

  /** Skipping a null first slot changes nothing of the outcome. */
  lemma SkippedFirst(elms: map<VId, HostId>, r: State, p: HostId, items: seq<Option<VNode>>, i: int, end: int,
                     A: seq<HostId>, B: seq<HostId>)
    requires 0 <= i <= end < |items| && items[i].None?
    requires KeptOutside(elms, r.elms, IdsOf(items[i + 1..end + 1]))
    requires forall j :: i + 1 <= j <= end && items[j].Some? ==> items[j].value.id in r.elms
    requires p in r.host.kids && r.host.kids[p] == A + LiveElms(r.elms, items[i + 1..end + 1]) + B
    ensures KeptOutside(elms, r.elms, IdsOf(items[i..end + 1]))
    ensures forall j :: i <= j <= end && items[j].Some? ==> items[j].value.id in r.elms
    ensures r.host.kids[p] == A + LiveElms(r.elms, items[i..end + 1]) + B
  {
    IdsOfCons(items, i, end);
    var rest := items[i + 1..end + 1];
    assert items[i..end + 1] == [items[i]] + rest;
    LiveElmsAppend(r.elms, [items[i]], rest);
    LiveElmsOne(r.elms, items[i]);
  }

  /** `AddVnodesBetween` when slot `i` holds a child. */
  lemma {:induction false} AddVnodesFirst(modules: seq<Module>, s: State, p: HostId,
                                          items: seq<Option<VNode>>, i: int, end: int,
                                          A: seq<HostId>, B: seq<HostId>)
    requires 0 <= i <= end < |items| && items[i].Some?
    requires Valid(s.host) && p in s.host.kids && s.host.kids[p] == A + B
    requires forall j :: i <= j <= end && items[j].Some? ==> DistinctIds(items[j].value)
    requires forall j, j' :: i <= j < j' <= end && items[j].Some? && items[j'].Some? ==> Ids(items[j].value) !! Ids(items[j'].value)
    ensures var r := AddVnodes(modules, s, p, if B == [] then None else Some(B[0]), items, i, end);
            && Valid(r.host) && s.host.next <= r.host.next && p in r.host.kids
            && Outside(s.host, r.host, {p} + Between(s.host.next, r.host.next))
            && KeptOutside(s.elms, r.elms, IdsOf(items[i..end + 1]))
            && (forall j :: i <= j <= end && items[j].Some? ==> items[j].value.id in r.elms && r.elms[items[j].value.id] >= s.host.next)
            && r.host.kids[p] == A + LiveElms(r.elms, items[i..end + 1]) + B
    decreases end - i, 1
  {
    var s1 := AddPeel(modules, s, p, items, i, end, A, B);
    AddRest(modules, s, s1, p, items, i, end, A, B);
  }

  /** The rounds of `addVnodes` after the first, composed with it. */
  lemma {:induction false} AddRest(modules: seq<Module>, s: State, s1: State, p: HostId,
                                   items: seq<Option<VNode>>, i: int, end: int,
                                   A: seq<HostId>, B: seq<HostId>)
    requires 0 <= i <= end < |items| && items[i].Some?
    requires forall j :: i <= j <= end && items[j].Some? ==> DistinctIds(items[j].value)
    requires forall j, j' :: i <= j < j' <= end && items[j].Some? && items[j'].Some? ==> Ids(items[j].value) !! Ids(items[j'].value)
    requires var ch := items[i].value;
             && Valid(s1.host) && s.host.next <= s1.host.next && p in s1.host.kids
             && ch.id in s1.elms && s1.elms[ch.id] == s.host.next && s1.host.kids[p] == A + [s1.elms[ch.id]] + B
             && Outside(s.host, s1.host, {p} + Between(s.host.next, s1.host.next))
             && KeptOutside(s.elms, s1.elms, Ids(ch))
    ensures var r := AddVnodes(modules, s1, p, if B == [] then None else Some(B[0]), items, i + 1, end);
            && Valid(r.host) && s.host.next <= r.host.next && p in r.host.kids
            && Outside(s.host, r.host, {p} + Between(s.host.next, r.host.next))
            && KeptOutside(s.elms, r.elms, IdsOf(items[i..end + 1]))
            && (forall j :: i <= j <= end && items[j].Some? ==> items[j].value.id in r.elms && r.elms[items[j].value.id] >= s.host.next)
            && r.host.kids[p] == A + LiveElms(r.elms, items[i..end + 1]) + B
    decreases end - i, 0
  {
    var ref := if B == [] then None else Some(B[0]);
    var r := AddVnodes(modules, s1, p, ref, items, i + 1, end);
    var n := s1.elms[items[i].value.id];
    AddVnodesBetween(modules, s1, p, items, i + 1, end, A + [n], B);
    RestApart(items, i, end);
    AddedFirst(s, s1, r, p, items, i, end, A, B);
  }

  /** The state after the first round of `addVnodes` when slot `i` holds
      a child, and what that round did. */
  lemma AddPeel(modules: seq<Module>, s: State, p: HostId, items: seq<Option<VNode>>, i: int, end: int,
                A: seq<HostId>, B: seq<HostId>) returns (s1: State)
    requires 0 <= i <= end < |items| && items[i].Some?
    requires Valid(s.host) && p in s.host.kids && s.host.kids[p] == A + B && DistinctIds(items[i].value)
    ensures var ref, ch := if B == [] then None else Some(B[0]), items[i].value;
            && AddVnodes(modules, s, p, ref, items, i, end) == AddVnodes(modules, s1, p, ref, items, i + 1, end)
            && Valid(s1.host) && s.host.next <= s1.host.next && p in s1.host.kids
            && ch.id in s1.elms && s1.elms[ch.id] == s.host.next && s1.host.kids[p] == A + [s1.elms[ch.id]] + B
            && Outside(s.host, s1.host, {p} + Between(s.host.next, s1.host.next))
            && KeptOutside(s.elms, s1.elms, Ids(ch))
  {
    var ref := if B == [] then None else Some(B[0]);
    s1 := AddOne(modules, s, p, ref, items[i].value);
    AddOneBetweenFacts(modules, s, p, items[i].value, A, B);
  }
}
