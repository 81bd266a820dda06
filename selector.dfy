/** Selector parsing in `createElm` and its inverse, the selector that
    `emptyNodeAt` builds from an existing element (src/package/init.ts). */
module Selectors {
  import opened Wrappers

  /** `s.indexOf(c, from)`: the first index `>= from` holding `c`, or -1.
      A negative `from` searches from 0, as JavaScript does. */
  function IndexOf(s: string, c: char, from: int): (r: int)
    requires from <= |s|
    ensures -1 <= r < |s|
    ensures r >= 0 ==> r >= from && s[r] == c && forall k :: (if from < 0 then 0 else from) <= k < r ==> s[k] != c
    ensures r == -1 ==> forall k :: (if from < 0 then 0 else from) <= k < |s| ==> s[k] != c
    decreases |s| - from
  {
    if from < 0 then IndexOf(s, c, 0)
    else if from == |s| then -1
    else if s[from] == c then from
    else IndexOf(s, c, from + 1)
  }

  /** `s.replace(/\./g, ' ')`. */
  function DotsToSpaces(s: string): (r: string)
    ensures |r| == |s|
    ensures forall k :: 0 <= k < |s| ==> r[k] == (if s[k] == '.' then ' ' else s[k])
  {
    if s == [] then [] else [if s[0] == '.' then ' ' else s[0]] + DotsToSpaces(s[1..])
  }

  /** `s.split(' ').join('.')`. */
  function SpacesToDots(s: string): (r: string)
    ensures |r| == |s|
    ensures forall k :: 0 <= k < |s| ==> r[k] == (if s[k] == ' ' then '.' else s[k])
  {
    if s == [] then [] else [if s[0] == ' ' then '.' else s[0]] + SpacesToDots(s[1..])
  }

  /** The parts `createElm` takes from a selector: the tag passed to
      createElement, and the values given to the `id` and `class` attributes
      (None when that attribute is not set). */
  datatype Parsed = Parsed(tag: string, id: Option<string>, className: Option<string>)

  function Min(a: int, b: int): int { if a <= b then a else b }

  /** The selector slicing of `createElm`, index for index. */
  function Parse(sel: string): (p: Parsed)
  {
    var hashIdx := IndexOf(sel, '#', 0);
    var dotIdx := IndexOf(sel, '.', hashIdx);
    var hash := if hashIdx > 0 then hashIdx else |sel|;
    var dot := if dotIdx > 0 then dotIdx else |sel|;
    var tag := if hashIdx != -1 || dotIdx != -1 then sel[..Min(hash, dot)] else sel;
    Parsed(
      tag,
      if hash < dot then Some(sel[hash + 1..dot]) else None,
      if dotIdx > 0 then Some(DotsToSpaces(sel[dot + 1..])) else None)
  }

  predicate Plain(s: string)
  {
    '#' !in s && '.' !in s
  }

  /** A selector without `#` and `.` is all tag: neither id nor class is set. */
  lemma ParsePlain(sel: string)
    requires Plain(sel)
    ensures Parse(sel) == Parsed(sel, None, None)
  {
    var hashIdx := IndexOf(sel, '#', 0);
    var dotIdx := IndexOf(sel, '.', hashIdx);
    assert hashIdx == -1;
    assert dotIdx == -1;
  }

  /** The well-ordered selector `tag#id.c1.c2...` parses into its parts:
      the tag before the first `#`, the id up to the next `.`, and the class
      list with every `.` turned into a space. */
  lemma ParseOrdered(tag: string, id: string, classes: string)
    requires tag != [] && Plain(tag) && Plain(id) && '#' !in classes
    ensures Parse(tag + ("#" + id) + ("." + classes)) == Parsed(tag, Some(id), Some(DotsToSpaces(classes)))
  {
    var sel := tag + ("#" + id) + ("." + classes);
    var d := |tag| + 1 + |id|;
    OrderedChars(tag, id, classes);
    IndexOfFirst(sel, '#', 0, |tag|);
    IndexOfFirst(sel, '.', |tag|, d);
    ParseBoth(sel, |tag|, d);
  }

  /** Where `#` and `.` sit in `tag#id.classes`. */
  lemma OrderedChars(tag: string, id: string, classes: string)
    requires Plain(tag) && Plain(id)
    ensures var sel := tag + ("#" + id) + ("." + classes);
            var d := |tag| + 1 + |id|;
            && sel[..|tag|] == tag && sel[|tag| + 1..d] == id && sel[d + 1..] == classes
            && sel[|tag|] == '#' && sel[d] == '.'
            && (forall k :: 0 <= k < |tag| ==> sel[k] != '#')
            && (forall k :: |tag| < k < d ==> sel[k] != '.')
  {
    var sel := tag + ("#" + id) + ("." + classes);
    var d := |tag| + 1 + |id|;
    forall k | 0 <= k < |tag| ensures sel[k] != '#' { assert sel[k] == tag[k] && tag[k] in tag; }
    forall k | |tag| < k < d ensures sel[k] != '.' { assert sel[k] == id[k - |tag| - 1] && id[k - |tag| - 1] in id; }
    assert sel[..|tag|] == tag;
    assert sel[|tag| + 1..d] == id;
    assert sel[d + 1..] == classes;
  }

  /** A selector with a `#` at `h > 0` followed by a first `.` at `d`. */
  lemma ParseBoth(sel: string, h: nat, d: nat)
    requires 0 < h < d < |sel|
    requires IndexOf(sel, '#', 0) == h && IndexOf(sel, '.', h) == d
    ensures Parse(sel) == Parsed(sel[..h], Some(sel[h + 1..d]), Some(DotsToSpaces(sel[d + 1..])))
  {
  }

  /** `indexOf` finds the first occurrence at or after `from`. */
  lemma {:induction false} IndexOfFirst(s: string, c: char, from: nat, at: nat)
    requires from <= at < |s| && s[at] == c
    requires forall k :: from <= k < at ==> s[k] != c
    ensures IndexOf(s, c, from) == at
    decreases at - from
  {
    if from < at {
      IndexOfFirst(s, c, from + 1, at);
    }
  }

  /** `tag#id` with no class part. */
  lemma ParseTagId(tag: string, id: string)
    requires tag != [] && Plain(tag) && Plain(id)
    ensures Parse(tag + ("#" + id)) == Parsed(tag, Some(id), None)
  {
    var sel := tag + ("#" + id);
    assert forall k :: 0 <= k < |tag| ==> sel[k] == tag[k];
    assert sel[|tag|] == '#';
    var hashIdx := IndexOf(sel, '#', 0);
    assert hashIdx == |tag|;
    forall k | |tag| < k < |sel| ensures sel[k] != '.' {
      assert sel[k] == id[k - |tag| - 1];
      assert id[k - |tag| - 1] in id;
    }
    assert IndexOf(sel, '.', hashIdx) == -1;
    assert Min(|tag|, |sel|) == |tag|;
    assert sel[..|tag|] == tag;
    assert sel[|tag| + 1..|sel|] == id;
  }

  /** `tag.classes` with no id part. */
  lemma ParseTagClass(tag: string, classes: string)
    requires tag != [] && Plain(tag) && '#' !in classes
    ensures Parse(tag + ("." + classes)) == Parsed(tag, None, Some(DotsToSpaces(classes)))
  {
    var sel := tag + ("." + classes);
    assert forall k :: 0 <= k < |tag| ==> sel[k] == tag[k];
    forall k | 0 <= k < |sel| ensures sel[k] != '#' {
      if k < |tag| { assert tag[k] in tag; }
      else if k > |tag| { assert sel[k] == classes[k - |tag| - 1]; assert classes[k - |tag| - 1] in classes; }
    }
    assert IndexOf(sel, '#', 0) == -1;
    assert sel[|tag|] == '.';
    assert IndexOf(sel, '.', -1) == |tag|;
    assert sel[..|tag|] == tag;
    assert sel[|tag| + 1..] == classes;
  }

  /** ASCII `toLowerCase`. */
  function LowerChar(c: char): char
  {
    if 'A' <= c <= 'Z' then (c as int + 32) as char else c
  }

  function Lower(s: string): (r: string)
    ensures |r| == |s|
    ensures forall k :: 0 <= k < |s| ==> r[k] == LowerChar(s[k])
  {
    if s == [] then [] else [LowerChar(s[0])] + Lower(s[1..])
  }

  /** The selector `emptyNodeAt` builds for an element with the given tag
      name, `id` and `className`: lowercased tag, `#id` if the id is
      non-empty, and the class names joined by dots if className is non-empty. */
  function ElementSelector(tagName: string, id: string, className: string): (sel: string)
  {
    Lower(tagName) + (if id != "" then "#" + id else "") + (if className != "" then "." + SpacesToDots(className) else "")
  }

  lemma DotsSpacesInverse(s: string)
    requires '.' !in s
    ensures DotsToSpaces(SpacesToDots(s)) == s
  {
    assert forall k :: 0 <= k < |s| ==> DotsToSpaces(SpacesToDots(s))[k] == s[k];
  }

  lemma LowerPlain(s: string)
    requires Plain(s)
    ensures Plain(Lower(s))
  {
    forall k | 0 <= k < |s| ensures Lower(s)[k] != '#' && Lower(s)[k] != '.' {
      assert s[k] in s;
    }
  }

  /** The facts every case of the round trip needs. */
  lemma SelectorParts(tagName: string, className: string)
    requires Plain(tagName) && Plain(className)
    ensures Plain(Lower(tagName)) && '#' !in SpacesToDots(className)
    ensures DotsToSpaces(SpacesToDots(className)) == className
    ensures (SpacesToDots(className) == "") == (className == "")
  {
    LowerPlain(tagName);
    var dots := SpacesToDots(className);
    forall k | 0 <= k < |dots| ensures dots[k] != '#' { assert className[k] in className; }
    DotsSpacesInverse(className);
  }

  lemma RoundTripIdClass(tagName: string, id: string, className: string)
    requires tagName != [] && Plain(tagName) && Plain(id) && Plain(className) && id != "" && className != ""
    ensures Parse(ElementSelector(tagName, id, className)) == Parsed(Lower(tagName), Some(id), Some(className))
  {
    SelectorParts(tagName, className);
    var tag, dots := Lower(tagName), SpacesToDots(className);
    var sel := tag + ("#" + id) + ("." + dots);
    assert ElementSelector(tagName, id, className) == sel;
    ParseOrdered(tag, id, dots);
    assert Parse(sel) == Parsed(tag, Some(id), Some(className));
  }

  lemma RoundTripId(tagName: string, id: string)
    requires tagName != [] && Plain(tagName) && Plain(id) && id != ""
    ensures Parse(ElementSelector(tagName, id, "")) == Parsed(Lower(tagName), Some(id), None)
  {
    LowerPlain(tagName);
    var tag := Lower(tagName);
    var sel := tag + ("#" + id);
    assert sel + "" == sel;
    assert ElementSelector(tagName, id, "") == sel;
    ParseTagId(tag, id);
  }

  lemma RoundTripClass(tagName: string, className: string)
    requires tagName != [] && Plain(tagName) && Plain(className) && className != ""
    ensures Parse(ElementSelector(tagName, "", className)) == Parsed(Lower(tagName), None, Some(className))
  {
    SelectorParts(tagName, className);
    var tag, dots := Lower(tagName), SpacesToDots(className);
    assert tag + "" == tag;
    var sel := tag + ("." + dots);
    assert ElementSelector(tagName, "", className) == sel;
    ParseTagClass(tag, dots);
    assert Parse(sel) == Parsed(tag, None, Some(className));
  }

  lemma RoundTripTag(tagName: string)
    requires tagName != [] && Plain(tagName)
    ensures Parse(ElementSelector(tagName, "", "")) == Parsed(Lower(tagName), None, None)
  {
    LowerPlain(tagName);
    assert ElementSelector(tagName, "", "") == Lower(tagName);
    ParsePlain(Lower(tagName));
  }

  /** Round trip: parsing the selector `emptyNodeAt` builds gives back the
      lowercased tag and the element's id and className (an empty id or
      className comes back as "not set"). */
  lemma ElementSelectorRoundTrip(tagName: string, id: string, className: string)
    requires tagName != [] && Plain(tagName) && Plain(id) && Plain(className)
    ensures Parse(ElementSelector(tagName, id, className)) ==
            Parsed(Lower(tagName),
                   if id != "" then Some(id) else None,
                   if className != "" then Some(className) else None)
  {
    if id != "" && className != "" {
      RoundTripIdClass(tagName, id, className);
    } else if id != "" {
      RoundTripId(tagName, id);
    } else if className != "" {
      RoundTripClass(tagName, className);
    } else {
      RoundTripTag(tagName);
    }
  }
}
