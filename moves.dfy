/** The list surgery behind the moves of `updateChildren`
    (src/package/init.ts:271-289): `insertBefore` of a child that is
    already in the parent's list moves it, either right (before the next
    sibling of another child) or left (before another child). */
module Moves {
  import opened Wrappers
  import opened VNodes
  import opened HostTree
  import opened Trees
  import opened Removal
  import opened Placement

  /** Moving the listed child `a` of `p` before `ref`, another child of
      `p` or none, changes only `p`'s list, to `L`. */
  lemma MoveWithin(h: Host, p: HostId, a: HostId, ref: Option<HostId>, L: seq<HostId>)
    requires Valid(h) && p in h.kids && a in h.kids[p]
    requires ref.Some? ==> ref.value in h.kids[p] && ref.value != a
    requires L == InsertAt(Without(h.kids[p], a), a, ref)
    ensures var r := InsertBefore(h, p, a, ref);
            && Valid(r) && r.next == h.next && Outside(h, r, {p})
            && r.kids == h.kids[p := L]
  {
    ParentOfListed(h, p, a);
    InsertBeforeSpec(h, p, a, ref);
    assert Detach(h, a).kids == h.kids[p := Without(h.kids[p], a)];
  }

  /** The list-level step of `MoveRight`. */
  lemma ListRight(a: HostId, X: seq<HostId>, Y: seq<HostId>, Z: seq<HostId>)
    requires NoDup(X + [a] + Y + Z)
    ensures InsertAt(Without(X + [a] + Y + Z, a), a, if Z == [] then None else Some(Z[0])) == X + Y + [a] + Z
  {
    var l := X + [a] + Y + Z;
    assert l == X + [a] + (Y + Z);
    NoDupSplit(l, X, a, Y + Z);
    WithoutSplit(X, a, Y + Z);
    WithoutNoDup(l, a);
    assert X + (Y + Z) == (X + Y) + Z;
    InsertAtBetween(X + Y, Z, a);
  }

  /** The list-level step of `MoveLeft`. */
  lemma ListLeft(a: HostId, X: seq<HostId>, Y: seq<HostId>, Z: seq<HostId>)
    requires NoDup(X + Y + [a] + Z) && Y != []
    ensures InsertAt(Without(X + Y + [a] + Z, a), a, Some(Y[0])) == X + [a] + Y + Z
  {
    var l := X + Y + [a] + Z;
    NoDupSplit(l, X + Y, a, Z);
    WithoutSplit(X + Y, a, Z);
    WithoutNoDup(l, a);
    assert X + Y + Z == X + (Y + Z);
    InsertAtBetween(X, Y + Z, a);
    assert (Y + Z)[0] == Y[0];
    assert X + [a] + (Y + Z) == X + [a] + Y + Z;
  }

  /** Moving `a` before the head of `Z` (to the end when `Z` is empty)
      takes it past `Y`. */
  lemma MoveRight(h: Host, p: HostId, a: HostId, X: seq<HostId>, Y: seq<HostId>, Z: seq<HostId>)
    requires Valid(h) && p in h.kids && h.kids[p] == X + [a] + Y + Z
    ensures var r := InsertBefore(h, p, a, if Z == [] then None else Some(Z[0]));
            && Valid(r) && r.next == h.next && Outside(h, r, {p})
            && p in r.kids && r.kids[p] == X + Y + [a] + Z
  {
    var l := h.kids[p];
    assert l == X + [a] + (Y + Z);
    NoDupSplit(l, X, a, Y + Z);
    assert l[|X|] == a;
    if Z != [] {
      assert l[|X| + 1 + |Y|] == Z[0];
      assert Z[0] in Y + Z;
    }
    ListRight(a, X, Y, Z);
    MoveWithin(h, p, a, if Z == [] then None else Some(Z[0]), X + Y + [a] + Z);
  }

  /** Moving `a` before the head of `Y` takes it back past `Y`. */
  lemma MoveLeft(h: Host, p: HostId, a: HostId, X: seq<HostId>, Y: seq<HostId>, Z: seq<HostId>)
    requires Valid(h) && p in h.kids && h.kids[p] == X + Y + [a] + Z && Y != []
    ensures var r := InsertBefore(h, p, a, Some(Y[0]));
            && Valid(r) && r.next == h.next && Outside(h, r, {p})
            && p in r.kids && r.kids[p] == X + [a] + Y + Z
  {
    var l := h.kids[p];
    NoDupSplit(l, X + Y, a, Z);
    assert l[|X| + |Y|] == a;
    assert l[|X|] == Y[0];
    assert Y[0] in X + Y;
    ListLeft(a, X, Y, Z);
    MoveWithin(h, p, a, Some(Y[0]), X + [a] + Y + Z);
  }
}
