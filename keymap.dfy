/** `createKeyToOldIdx` (src/package/init.ts): the index of every keyed old
    child in a window of the children array. */
module KeyMaps {
  import opened Wrappers
  import opened VNodes

  /** `children[i]`, undefined outside the array or in a null slot. */
  function SlotAt(children: seq<Option<VNode>>, i: int): Option<VNode>
  {
    if 0 <= i < |children| then children[i] else None
  }

  /** `children[i]?.key`. */
  function KeyAt(children: seq<Option<VNode>>, i: int): Option<Key>
  {
    var slot := SlotAt(children, i);
    if slot.Some? then slot.value.key else None
  }

  /** The map `createKeyToOldIdx(children, beginIdx, endIdx)` returns:
      the slots are visited in increasing order and each keyed one writes
      its index under its key. */
  function KeyIndex(children: seq<Option<VNode>>, beginIdx: int, endIdx: int): map<Key, int>
    decreases endIdx - beginIdx
  {
    if endIdx < beginIdx then map[]
    else
      var m := KeyIndex(children, beginIdx, endIdx - 1);
      if KeyAt(children, endIdx).Some? then m[KeyAt(children, endIdx).value := endIdx] else m
  }

  /** The loop of `createKeyToOldIdx`. */
  method CreateKeyToOldIdx(children: array<Option<VNode>>, beginIdx: int, endIdx: int)
    returns (m: map<Key, int>)
    ensures m == KeyIndex(children[..], beginIdx, endIdx)
  {
    m := map[];
    var i := beginIdx;
    while i <= endIdx
      invariant beginIdx <= i
      invariant i <= endIdx + 1 || i == beginIdx
      invariant m == KeyIndex(children[..], beginIdx, i - 1)
    {
      var key := if 0 <= i < children.Length && children[i].Some? then children[i].value.key else None;
      assert key == KeyAt(children[..], i);
      if key.Some? {
        m := m[key.value := i];
      }
      i := i + 1;
    }
  }

  /** Every key that occurs in `[beginIdx, endIdx]` is mapped to the LAST
      index holding it, and nothing else is mapped. */
  lemma {:induction false} KeyIndexSpec(children: seq<Option<VNode>>, beginIdx: int, endIdx: int)
    ensures var m := KeyIndex(children, beginIdx, endIdx);
            && (forall k :: k in m ==> beginIdx <= m[k] <= endIdx && KeyAt(children, m[k]) == Some(k))
            && (forall i :: beginIdx <= i <= endIdx && KeyAt(children, i).Some? ==>
                  KeyAt(children, i).value in m && i <= m[KeyAt(children, i).value])
    decreases endIdx - beginIdx
  {
    if beginIdx <= endIdx {
      KeyIndexSpec(children, beginIdx, endIdx - 1);
    }
  }

  /** Under unique keys, the map is exact: a key maps to an index iff that
      index is in the window and holds a child with that key. */
  lemma KeyMapExact(children: seq<Option<VNode>>, beginIdx: int, endIdx: int, k: Key, i: int)
    requires UniqueKeys(children)
    ensures var m := KeyIndex(children, beginIdx, endIdx);
            (k in m && m[k] == i) <==> (beginIdx <= i <= endIdx && KeyAt(children, i) == Some(k))
  {
    var m := KeyIndex(children, beginIdx, endIdx);
    KeyIndexSpec(children, beginIdx, endIdx);
    if beginIdx <= i <= endIdx && KeyAt(children, i) == Some(k) {
      var j := m[k];
      assert KeyAt(children, j) == Some(k) && i <= j;
      if i < j {
        assert false;
      }
    }
  }
}
