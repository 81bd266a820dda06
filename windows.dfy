/** The bookkeeping of the `updateChildren` loop (src/package/init.ts:226-316)
    over the old children `O` and the new children `N`: which old slots are
    still live in the window, which new slots are still to be handled, and
    the fact that a keyed old child and the new child `sameVnode` pairs it
    with leave their windows in the same round. */
module Windows {
  import opened Wrappers
  import opened VNodes
  import opened KeyMaps
  import opened Diff

  /** Old slot `k` is in the window and not yet set to undefined. */
  predicate LiveIn(c: Cursors, k: int)
  {
    c.os <= k <= c.oe && 0 <= k < |c.oldCh| && c.oldCh[k].Some?
  }

  /** New slot `j` is still to be handled. */
  predicate InNew(c: Cursors, j: int)
  {
    c.ns <= j <= c.ne
  }

  /** Old slot `k` and new slot `j` hold keyed vnodes that `sameVnode` pairs. */
  predicate Pair(O: seq<Option<VNode>>, N: seq<Option<VNode>>, k: int, j: int)
  {
    && 0 <= k < |O| && 0 <= j < |N| && O[k].Some? && N[j].Some?
    && O[k].value.key.Some? && SameVnode(O[k].value, N[j].value)
  }

  /** The key map in use (built or still to be built) maps keys only to
      slots of `O` holding that key, and maps every key live in the window. */
  ghost predicate KeysOk(O: seq<Option<VNode>>, c: Cursors)
  {
    var m := KeysNow(c);
    && (forall key :: key in m ==> 0 <= m[key] < |O| && O[m[key]].Some? && O[m[key]].value.key == Some(key))
    && (forall k :: LiveIn(c, k) && c.oldCh[k].value.key.Some? ==> c.oldCh[k].value.key.value in m)
  }

  /** The loop variables `c` describe a run over `O` and `N` with unique
      sibling keys: the windows are in bounds, the array copy holds `O`
      except for slots set to undefined, the cached start and end are the
      window's ends, the key map is sound, and a keyed pair is either in
      both windows or in neither. */
  ghost predicate Cur(O: seq<Option<VNode>>, N: seq<Option<VNode>>, c: Cursors)
  {
    && UniqueKeys(O) && UniqueKeys(N)
    && |c.oldCh| == |O|
    && 0 <= c.os <= c.oe + 1 <= |O| && 0 <= c.ns <= c.ne + 1 <= |N|
    && (forall k :: 0 <= k < |O| && c.oldCh[k].Some? ==> c.oldCh[k] == O[k])
    && (c.os <= c.oe ==> c.oldStart == c.oldCh[c.os] && c.oldEnd == c.oldCh[c.oe])
    && KeysOk(O, c)
    && (forall k, j :: Pair(O, N, k, j) ==> (LiveIn(c, k) <==> InNew(c, j)))
  }

  /** Before the key map is built, it is the map over the current window. */
  lemma KeysFresh(O: seq<Option<VNode>>, c: Cursors)
    requires c.keys.None? && |c.oldCh| == |O|
    requires forall k :: 0 <= k < |O| && c.oldCh[k].Some? ==> c.oldCh[k] == O[k]
    ensures KeysOk(O, c)
  {
    var m := KeysNow(c);
    KeyIndexSpec(c.oldCh, c.os, c.oe);
    forall key | key in m ensures 0 <= m[key] < |O| && O[m[key]].Some? && O[m[key]].value.key == Some(key) {
      assert KeyAt(c.oldCh, m[key]) == Some(key);
    }
    forall k | LiveIn(c, k) && c.oldCh[k].value.key.Some? ensures c.oldCh[k].value.key.value in m {
      assert KeyAt(c.oldCh, k) == c.oldCh[k].value.key;
    }
  }

  /** The loop starts with both windows full. */
  lemma CurStart(O: seq<Option<VNode>>, N: seq<Option<VNode>>)
    requires UniqueKeys(O) && UniqueKeys(N)
    ensures Cur(O, N, Start(O, N))
  {
    KeysFresh(O, Start(O, N));
  }

  /** Two keyed siblings with the same key are the same slot. */
  lemma KeyInjective(items: seq<Option<VNode>>, i: int, j: int)
    requires UniqueKeys(items)
    requires 0 <= i < |items| && 0 <= j < |items| && items[i].Some? && items[j].Some?
    requires items[i].value.key.Some? && items[i].value.key == items[j].value.key
    ensures i == j
  {
  }

  /** A `sameVnode` match between old slot `k0` and new slot `j0` involves
      every keyed pair through either slot. */
  lemma SamePairs(O: seq<Option<VNode>>, N: seq<Option<VNode>>, k0: int, j0: int)
    requires UniqueKeys(O) && UniqueKeys(N)
    requires 0 <= k0 < |O| && 0 <= j0 < |N| && O[k0].Some? && N[j0].Some? && SameVnode(O[k0].value, N[j0].value)
    ensures forall k, j :: Pair(O, N, k, j) ==> (k == k0 <==> j == j0)
  {
    forall k, j | Pair(O, N, k, j) ensures k == k0 <==> j == j0 {
      if k == k0 {
        KeyInjective(N, j, j0);
      }
      if j == j0 {
        KeyInjective(O, k, k0);
      }
    }
  }

  /** When no end matches, the new start's keyed partner is found through
      the key map. */
  lemma KeyedFound(O: seq<Option<VNode>>, N: seq<Option<VNode>>, c: Cursors, k: int)
    requires Cur(O, N, c) && Running(c) && Pair(O, N, k, c.ns)
    requires var m := Choose(c, N); m.CreateNew? || m.MoveKeyed?
    ensures Choose(c, N) == MoveKeyed(k)
  {
    var m := KeysNow(c);
    var key := O[k].value.key.value;
    assert LiveIn(c, k);
    assert key in m;
    KeyInjective(O, m[key], k);
    assert Lookup(m, N[c.ns].value.key) == Some(k);
  }

  /** The key-matched old child sits strictly inside the old window and
      pairs with the new start. */
  lemma KeyedInside(O: seq<Option<VNode>>, N: seq<Option<VNode>>, c: Cursors)
    requires Cur(O, N, c) && Running(c) && Choose(c, N).MoveKeyed?
    ensures var idx := Choose(c, N).idx;
            && c.os < idx < c.oe && LiveIn(c, idx) && c.oldCh[idx] == O[idx]
            && Pair(O, N, idx, c.ns)
  {
    var idx := Choose(c, N).idx;
    var newStart := SlotAt(N, c.ns).value;
    var m := KeysNow(c);
    assert newStart.key.Some? && newStart.key.value in m && m[newStart.key.value] == idx;
    assert O[idx].value.key == newStart.key;
    assert Pair(O, N, idx, c.ns);
    assert LiveIn(c, idx);
  }

  /** What `Cur` asks of the variables after a round, given `Cur` before it. */
  lemma CurNext(O: seq<Option<VNode>>, N: seq<Option<VNode>>, c: Cursors, c': Cursors)
    requires Cur(O, N, c)
    requires |c'.oldCh| == |O|
    requires 0 <= c'.os <= c'.oe + 1 <= |O| && 0 <= c'.ns <= c'.ne + 1 <= |N|
    requires forall k :: 0 <= k < |O| && c'.oldCh[k].Some? ==> c'.oldCh[k] == c.oldCh[k]
    requires c'.os <= c'.oe ==> c'.oldStart == c'.oldCh[c'.os] && c'.oldEnd == c'.oldCh[c'.oe]
    requires c'.keys == Some(KeysNow(c)) || (c'.keys.None? && c.keys.None?)
    requires forall k :: LiveIn(c', k) ==> LiveIn(c, k)
    requires forall k, j :: Pair(O, N, k, j) ==> (LiveIn(c', k) <==> InNew(c', j))
    ensures Cur(O, N, c')
  {
    if c'.keys.None? {
      KeysFresh(O, c');
    }
  }

  /** One round keeps the bookkeeping. */
  lemma CurAdvance(O: seq<Option<VNode>>, N: seq<Option<VNode>>, c: Cursors)
    requires Cur(O, N, c) && Running(c)
    ensures Cur(O, N, Advance(c, N))
  {
    var m := Choose(c, N);
    if m.SkipOldStart? {
      CurSkipOldStart(O, N, c);
    } else if m.SkipOldEnd? {
      CurSkipOldEnd(O, N, c);
    } else if m.SkipNewStart? || m.SkipNewEnd? {
      CurSkipNew(O, N, c);
    } else if m.StartStart? {
      CurMatch(O, N, c, c.os, c.ns);
    } else if m.EndEnd? {
      CurMatch(O, N, c, c.oe, c.ne);
    } else if m.StartToEnd? {
      CurMatch(O, N, c, c.os, c.ne);
    } else if m.EndToStart? {
      CurMatch(O, N, c, c.oe, c.ns);
    } else if m.CreateNew? {
      CurCreate(O, N, c);
    } else {
      CurKeyed(O, N, c);
    }
  }

  lemma CurSkipOldStart(O: seq<Option<VNode>>, N: seq<Option<VNode>>, c: Cursors)
    requires Cur(O, N, c) && Running(c) && Choose(c, N).SkipOldStart?
    ensures Cur(O, N, Advance(c, N))
  {
    var c' := Advance(c, N);
    assert c' == c.(os := c.os + 1, oldStart := SlotAt(c.oldCh, c.os + 1));
    assert forall k :: LiveIn(c', k) <==> LiveIn(c, k);
    CurNext(O, N, c, c');
  }

  lemma CurSkipOldEnd(O: seq<Option<VNode>>, N: seq<Option<VNode>>, c: Cursors)
    requires Cur(O, N, c) && Running(c) && Choose(c, N).SkipOldEnd?
    ensures Cur(O, N, Advance(c, N))
  {
    var c' := Advance(c, N);
    assert c' == c.(oe := c.oe - 1, oldEnd := SlotAt(c.oldCh, c.oe - 1));
    assert forall k :: LiveIn(c', k) <==> LiveIn(c, k);
    CurNext(O, N, c, c');
  }

  lemma CurSkipNew(O: seq<Option<VNode>>, N: seq<Option<VNode>>, c: Cursors)
    requires Cur(O, N, c) && Running(c)
    requires var m := Choose(c, N); m.SkipNewStart? || m.SkipNewEnd?
    ensures Cur(O, N, Advance(c, N))
  {
    var c' := Advance(c, N);
    assert c'.oldCh == c.oldCh && c'.os == c.os && c'.oe == c.oe && c'.keys == c.keys;
    CurNext(O, N, c, c');
  }

  /** A round that patches old slot `k0` against new slot `j0`. */
  lemma CurMatch(O: seq<Option<VNode>>, N: seq<Option<VNode>>, c: Cursors, k0: int, j0: int)
    requires Cur(O, N, c) && Running(c)
    requires var m := Choose(c, N); m.StartStart? || m.EndEnd? || m.StartToEnd? || m.EndToStart?
    requires var m := Choose(c, N);
             && k0 == (if m.StartStart? || m.StartToEnd? then c.os else c.oe)
             && j0 == (if m.StartStart? || m.EndToStart? then c.ns else c.ne)
    ensures Cur(O, N, Advance(c, N))
  {
    var c' := Advance(c, N);
    assert c'.oldCh == c.oldCh && c'.keys == c.keys;
    SamePairs(O, N, k0, j0);
    assert forall k :: LiveIn(c', k) <==> LiveIn(c, k) && k != k0;
    assert forall j :: InNew(c', j) <==> InNew(c, j) && j != j0;
    CurNext(O, N, c, c');
  }

  lemma CurCreate(O: seq<Option<VNode>>, N: seq<Option<VNode>>, c: Cursors)
    requires Cur(O, N, c) && Running(c) && Choose(c, N).CreateNew?
    ensures Cur(O, N, Advance(c, N))
  {
    var c' := Advance(c, N);
    assert c' == c.(ns := c.ns + 1, keys := Some(KeysNow(c)));
    forall k, j | Pair(O, N, k, j) ensures LiveIn(c', k) <==> InNew(c', j) {
      if j == c.ns {
        KeyedFound(O, N, c, k);
      }
    }
    CurNext(O, N, c, c');
  }

  lemma CurKeyed(O: seq<Option<VNode>>, N: seq<Option<VNode>>, c: Cursors)
    requires Cur(O, N, c) && Running(c) && Choose(c, N).MoveKeyed?
    ensures Cur(O, N, Advance(c, N))
  {
    var c' := Advance(c, N);
    var idx := Choose(c, N).idx;
    assert c' == c.(ns := c.ns + 1, keys := Some(KeysNow(c)), oldCh := c.oldCh[idx := None]);
    KeyedInside(O, N, c);
    SamePairs(O, N, idx, c.ns);
    assert forall k :: LiveIn(c', k) <==> LiveIn(c, k) && k != idx;
    CurNext(O, N, c, c');
  }
}
