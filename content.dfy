/** The host effect of each text/children case of `patchVnode`
    (src/package/init.ts:347-372) on the element `e` of the old vnode `x`,
    when the host mirrors `x`: new text replaces the old children or text
    by a single text node; new children alone are appended after the old
    text is cleared; old children alone are removed; neither clears the
    old text. The case where both have children is `updateChildren`,
    whose outcome `ChildOrder.UpdateChildrenOrder` states. */
module ContentCases {
  import opened Wrappers
  import opened VNodes
  import opened HostTree
  import opened Hooks
  import opened Trees
  import opened States
  import opened Creation
  import opened Removal
  import opened Diff
  import opened DiffFrame
  import opened Adding
  import opened Tracking

  /** `setTextContent` changes only `n` and, for a non-empty text on an
      element, the text node it makes. */
  lemma SetTextFrame(h: Host, n: HostId, str: string)
    requires Valid(h) && n in h.info
    ensures var r := SetTextContent(h, n, str);
            && Valid(r) && h.next <= r.next && n in r.kids && n in r.info
            && Outside(h, r, {n} + Between(h.next, r.next))
  {
    SetTextContentSpec(h, n, str);
    OutsideSetTextContent(h, n, str);
    var r := SetTextContent(h, n, str);
    if r.next == h.next {
      assert h.next !in h.kids && h.next !in h.info;
      assert r == h || (h.info[n].Element? && r == h.(kids := h.kids[n := []])) || r == h.(info := h.info[n := h.info[n].(data := str)]);
    } else {
      assert h.next in Between(h.next, r.next);
    }
  }

  /** The text `setTextContent(e, str)` leaves on an element. */
  lemma SetTextShows(h: Host, n: HostId, str: string)
    requires Valid(h) && n in h.info && h.info[n].Element?
    ensures var r := SetTextContent(h, n, str);
            n in r.kids && r.info[n] == h.info[n] && ShowsText(r, n, str)
  {
    SetTextContentSpec(h, n, str);
  }

  /** Removing all old children of an element that mirrors them empties
      its list and changes nothing else but the trace. */
  lemma RemoveAllChildren(modules: seq<Module>, s: State, x: VNode, e: HostId)
    requires AllModulesSync(modules) && Valid(s.host)
    requires Mirrors(s.host, s.elms, s.texts, x, []) && WellFormed(x) && RemovesNow(x)
    requires x.children.Some? && e == s.elms[x.id]
    ensures var O := x.children.value.items;
            var r := RemoveVnodes(modules, s, e, O, 0, |O| - 1);
            && r == s.(host := r.host, trace := r.trace)
            && Valid(r.host) && r.host == s.host.(kids := s.host.kids[e := []])
  {
    var O := x.children.value.items;
    assert IsElement(x);
    assert s.host.kids[e] == [] + LiveElms(s.elms, O);
    assert O[0..|O| - 1 + 1] == O;
    forall j | 0 <= j <= |O| - 1 && O[j].Some? ensures O[j].value.id in s.elms && !RemovesLater(O[j].value) {
      assert Mirrors(s.host, s.elms, s.texts, O[j].value, []);
      assert RemovesNow(O[j].value);
    }
    RemoveVnodesSync(modules, s, e, O, 0, |O| - 1, [], []);
    var none: seq<HostId> := [];
    assert none + none == none;
  }

  /** New text: the old children (if any) are removed and the element
      shows the text as its only child; a text or comment node takes the
      text as its data. */
  lemma ContentText(modules: seq<Module>, corrected: bool, s: State, x: VNode, y: VNode, e: HostId)
    requires Ready(modules, corrected, s, x, y) && x.id in s.elms && e == s.elms[x.id]
    requires TextOf(s.texts, y).Some? && TextOf(s.texts, x) != TextOf(s.texts, y)
    ensures var r, str := PatchContent(modules, corrected, s, x, y, e), PrimString(TextOf(s.texts, y).value);
            && Valid(r.host) && s.host.next <= r.host.next
            && Outside(s.host, r.host, {e} + Between(s.host.next, r.host.next))
            && r.elms == s.elms && r.texts == s.texts
            && e in r.host.kids && e in r.host.info
            && (IsElement(x) ==> r.host.info[e] == s.host.info[e] && ShowsText(r.host, e, str))
            && (x.sel.None? ==> r.host.info[e] == Text(str))
            && (x.sel == Some("!") ==> r.host.info[e] == Comment(str))
  {
    var O := if x.children.Some? then x.children.value.items else [];
    var str := PrimString(TextOf(s.texts, y).value);
    var s1 := if x.children.Some? then RemoveVnodes(modules, s, e, O, 0, |O| - 1) else s;
    if x.children.Some? {
      RemoveAllChildren(modules, s, x, e);
    }
    assert s1.host.info == s.host.info && s1.elms == s.elms && s1.texts == s.texts;
    assert Outside(s.host, s1.host, {e}) && s1.host.next == s.host.next && Valid(s1.host);
    SetTextFrame(s1.host, e, str);
    if IsElement(x) {
      SetTextShows(s1.host, e, str);
    }
  }

  /** New children where the old vnode had none: the old text is cleared
      and the new children's nodes become the element's list, in order. */
  lemma ContentAdd(modules: seq<Module>, corrected: bool, s: State, x: VNode, y: VNode, e: HostId)
    requires Ready(modules, corrected, s, x, y) && x.id in s.elms && e == s.elms[x.id]
    requires TextOf(s.texts, y).None? && y.children.Some? && x.children.None?
    ensures var r, N := PatchContent(modules, corrected, s, x, y, e), y.children.value.items;
            && Valid(r.host) && s.host.next <= r.host.next
            && Outside(s.host, r.host, {e} + Between(s.host.next, r.host.next))
            && e in r.host.kids
            && (IsElement(x) ==> r.host.kids[e] == LiveElms(r.elms, N))
            && (forall j :: 0 <= j < |N| && N[j].Some? ==> N[j].value.id in r.elms)
  {
    var N := y.children.value.items;
    var s1 := if TextOf(s.texts, x).Some? then s.(host := SetTextContent(s.host, e, "")) else s;
    assert PatchContent(modules, corrected, s, x, y, e) == AddVnodes(modules, s1, e, None, N, 0, |N| - 1);
    SetTextFrame(s.host, e, "");
    if IsElement(x) && TextOf(s.texts, x).Some? {
      SetTextShows(s.host, e, "");
    }
    assert forall j :: 0 <= j < |N| && N[j].Some? ==> DistinctIds(N[j].value);
    assert forall j, j' :: 0 <= j < j' < |N| && N[j].Some? && N[j'].Some? ==> Ids(N[j].value) !! Ids(N[j'].value);
    AddedAll(modules, s, s1, e, N, IsElement(x));
  }

  /** `addVnodes` of a whole list after the text was cleared. */
  lemma AddedAll(modules: seq<Module>, s: State, s1: State, e: HostId, N: seq<Option<VNode>>, elem: bool)
    requires Valid(s1.host) && s.host.next <= s1.host.next && e in s1.host.kids
    requires Outside(s.host, s1.host, {e} + Between(s.host.next, s1.host.next))
    requires elem ==> s1.host.kids[e] == []
    requires forall j :: 0 <= j < |N| && N[j].Some? ==> DistinctIds(N[j].value)
    requires forall j, j' :: 0 <= j < j' < |N| && N[j].Some? && N[j'].Some? ==> Ids(N[j].value) !! Ids(N[j'].value)
    ensures var r := AddVnodes(modules, s1, e, None, N, 0, |N| - 1);
            && Valid(r.host) && s.host.next <= r.host.next
            && Outside(s.host, r.host, {e} + Between(s.host.next, r.host.next))
            && e in r.host.kids
            && (elem ==> r.host.kids[e] == LiveElms(r.elms, N))
            && (forall j :: 0 <= j < |N| && N[j].Some? ==> N[j].value.id in r.elms)
  {
    var A := s1.host.kids[e];
    assert A == A + [];
    assert N[0..|N| - 1 + 1] == N;
    AddVnodesBetween(modules, s1, e, N, 0, |N| - 1, A, []);
    var r := AddVnodes(modules, s1, e, None, N, 0, |N| - 1);
    OutsideGrow(s.host, s1.host, r.host, {e} + Between(s.host.next, s1.host.next), {e} + Between(s1.host.next, r.host.next),
                {e} + Between(s.host.next, r.host.next));
    if elem {
      assert r.host.kids[e] == [] + LiveElms(r.elms, N) + [];
    }
  }

  /** Old children where the new vnode has none and no text: they are
      removed and the element's list is empty. */
  lemma ContentRemove(modules: seq<Module>, corrected: bool, s: State, x: VNode, y: VNode, e: HostId)
    requires Ready(modules, corrected, s, x, y) && x.id in s.elms && e == s.elms[x.id]
    requires TextOf(s.texts, y).None? && y.children.None? && x.children.Some?
    ensures var r := PatchContent(modules, corrected, s, x, y, e);
            && Valid(r.host) && r.host.next == s.host.next
            && Outside(s.host, r.host, {e})
            && r.elms == s.elms && r.texts == s.texts
            && e in r.host.kids && r.host.kids[e] == []
  {
    RemoveAllChildren(modules, s, x, e);
  }

  /** Neither children nor text in the new vnode, and no old children:
      the old text, if any, is cleared. */
  lemma ContentClear(modules: seq<Module>, corrected: bool, s: State, x: VNode, y: VNode, e: HostId)
    requires Ready(modules, corrected, s, x, y) && x.id in s.elms && e == s.elms[x.id]
    requires TextOf(s.texts, y).None? && y.children.None? && x.children.None?
    ensures var r := PatchContent(modules, corrected, s, x, y, e);
            && Valid(r.host) && s.host.next <= r.host.next
            && Outside(s.host, r.host, {e} + Between(s.host.next, r.host.next))
            && r.elms == s.elms && r.texts == s.texts
            && e in r.host.kids
            && (IsElement(x) ==> r.host.kids[e] == [])
  {
    SetTextFrame(s.host, e, "");
    if IsElement(x) && TextOf(s.texts, x).Some? {
      SetTextShows(s.host, e, "");
    }
  }
}
