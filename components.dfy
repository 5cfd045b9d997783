/**
  _parse_components: the `<li>(.+?)</li>` scan (case-insensitive, DOTALL,
  non-overlapping, left to right), the removal of empty and repeated item
  texts, and the anchored split `^(.+?)\s*\(([^)]+)\)\s*$` of each item into
  a name and a status.
*/
module Components {
  import opened Wrappers
  import opened Text
  import opened Models
  import opened Html

  // ---------------------------------------------------------------------
  // _COMPONENT_RE = <li>(.+?)</li>, re.IGNORECASE | re.DOTALL
  // ---------------------------------------------------------------------

  const ItemOpen: String := "<li>"
  const ItemClose: String := "</li>"

  /** A match of _COMPONENT_RE at index p whose group has `len` >= 1 characters
      (DOTALL: any character, newlines included) */
  predicate ItemMatch(s: String, p: nat, len: nat) {
    MatchesAtCI(s, p, ItemOpen) && len >= 1 && MatchesAtCI(s, p + |ItemOpen| + len, ItemClose)
  }

  /** The shortest group for a match at p, if any */
  function ItemAt(s: String, p: nat): (r: Option<nat>)
    requires p <= |s|
    ensures r.Some? ==> ItemMatch(s, p, r.value)
    ensures r.Some? ==> forall g: nat :: g < r.value ==> !ItemMatch(s, p, g)
    ensures r.None? ==> forall g: nat :: !ItemMatch(s, p, g)
  {
    if MatchesAtCI(s, p, ItemOpen) && p + |ItemOpen| + 1 <= |s| then
      match FindCI(s, ItemClose, p + |ItemOpen| + 1)
      case Some(e) => Some(e - p - |ItemOpen|)
      case None => None
    else None
  }

  /** The next match at or after `from`: the leftmost start, then the shortest group */
  function FindItem(s: String, from: nat): (r: Option<(nat, nat)>)
    requires from <= |s|
    ensures r.Some? ==> from <= r.value.0 && ItemMatch(s, r.value.0, r.value.1)
    ensures r.Some? ==> forall p: nat, g: nat :: from <= p < r.value.0 ==> !ItemMatch(s, p, g)
    ensures r.Some? ==> forall g: nat :: g < r.value.1 ==> !ItemMatch(s, r.value.0, g)
    ensures r.None? ==> forall p: nat, g: nat :: from <= p ==> !ItemMatch(s, p, g)
    decreases |s| - from
  {
    if from == |s| then None
    else match ItemAt(s, from)
      case Some(g) => Some((from, g))
      case None => FindItem(s, from + 1)
  }

  /** The groups of _COMPONENT_RE.finditer(s[from..]), in order; each scan
      resumes right after the `</li>` of the previous match */
  function ItemGroups(s: String, from: nat): (gs: seq<String>)
    requires from <= |s|
    ensures (forall p: nat, g: nat :: from <= p ==> !ItemMatch(s, p, g)) <==> gs == []
    ensures forall k :: 0 <= k < |gs| ==> gs[k] != []
    decreases |s| - from
  {
    match FindItem(s, from)
    case None => []
    case Some((p, g)) =>
      var start := p + |ItemOpen|;
      [s[start..start + g]] + ItemGroups(s, start + g + |ItemClose|)
  }

  /** The group of the first match is the first group reported */
  lemma FirstItemGroup(s: String, p: nat, g: nat)
    requires ItemMatch(s, p, g)
    requires forall p': nat, g': nat :: p' < p ==> !ItemMatch(s, p', g')
    requires forall g': nat :: g' < g ==> !ItemMatch(s, p, g')
    ensures ItemGroups(s, 0) != [] && ItemGroups(s, 0)[0] == s[p + |ItemOpen|..p + |ItemOpen| + g]
  {
    var r := FindItem(s, 0);
    assert r.Some?;
    assert r.value.0 == p;
    assert r.value.1 == g;
  }

  // ---------------------------------------------------------------------
  // The `seen` filter: drop empty and already-kept item texts
  // ---------------------------------------------------------------------

  /** The stripped item texts the loop keeps, in first-occurrence order */
  function Distinct(raws: seq<String>): seq<String>
    decreases |raws|
  {
    if raws == [] then []
    else
      var kept := Distinct(raws[..|raws| - 1]);
      var x := raws[|raws| - 1];
      if x == [] || x in kept then kept else kept + [x]
  }

  /** No kept text is empty and none is kept twice */
  lemma {:induction false} DistinctNoDuplicates(raws: seq<String>)
    ensures forall k :: 0 <= k < |Distinct(raws)| ==> Distinct(raws)[k] != []
    ensures forall i, j :: 0 <= i < j < |Distinct(raws)| ==> Distinct(raws)[i] != Distinct(raws)[j]
    decreases |raws|
  {
    if raws != [] {
      DistinctNoDuplicates(raws[..|raws| - 1]);
    }
  }

  /** Exactly the non-empty texts are kept */
  lemma {:induction false} DistinctMembers(raws: seq<String>)
    ensures forall x :: x in Distinct(raws) <==> x in raws && x != []
    decreases |raws|
  {
    if raws != [] {
      var init := raws[..|raws| - 1];
      DistinctMembers(init);
      assert raws == init + [raws[|raws| - 1]];
    }
  }

  /** Texts that are already non-empty and pairwise different are all kept, in order */
  lemma {:induction false} DistinctOfDistinct(raws: seq<String>)
    requires forall k :: 0 <= k < |raws| ==> raws[k] != []
    requires forall i, j :: 0 <= i < j < |raws| ==> raws[i] != raws[j]
    ensures Distinct(raws) == raws
    decreases |raws|
  {
    if raws != [] {
      var init := raws[..|raws| - 1];
      DistinctOfDistinct(init);
      var x := raws[|raws| - 1];
      assert x !in init by {
        forall i | 0 <= i < |init| ensures init[i] != x {
          assert init[i] == raws[i];
        }
      }
      assert init + [x] == raws;
    }
  }

  /** A text repeated right after itself adds nothing: the two items collapse to one */
  lemma DistinctRepeat(raws: seq<String>, x: String)
    requires x != []
    ensures Distinct(raws + [x, x]) == Distinct(raws + [x])
  {
    var a := raws + [x];
    assert (raws + [x, x])[..|raws| + 1] == a;
    assert a[..|raws|] == raws;
    DistinctMembers(a);
    assert x in a;
  }

  /** The index of the first occurrence of `x` in `raws` */
  function FirstIndex(raws: seq<String>, x: String): (r: nat)
    requires x in raws
    ensures r < |raws| && raws[r] == x
    ensures forall i :: 0 <= i < r ==> raws[i] != x
  {
    if raws[0] == x then 0 else 1 + FirstIndex(raws[1..], x)
  }

  /** Appending an item does not move the first occurrence of an earlier text */
  lemma FirstIndexSnoc(raws: seq<String>, y: String, x: String)
    requires x in raws
    ensures FirstIndex(raws + [y], x) == FirstIndex(raws, x)
  {
    var r1, r2 := FirstIndex(raws, x), FirstIndex(raws + [y], x);
    assert (raws + [y])[r1] == x;
  }

  /** Texts are kept in the order of their first occurrence: the order of
      `seen` insertion, not that of their last occurrence */
  lemma {:induction false} DistinctFirstOccurrenceOrder(raws: seq<String>)
    ensures forall k :: 0 <= k < |Distinct(raws)| ==> Distinct(raws)[k] in raws
    ensures forall k, l :: 0 <= k < l < |Distinct(raws)| ==>
      Distinct(raws)[k] in raws && Distinct(raws)[l] in raws &&
      FirstIndex(raws, Distinct(raws)[k]) < FirstIndex(raws, Distinct(raws)[l])
    decreases |raws|
  {
    if raws != [] {
      var init := raws[..|raws| - 1];
      var x := raws[|raws| - 1];
      assert raws == init + [x];
      DistinctFirstOccurrenceOrder(init);
      DistinctKeepsFirstIndex(init, x);
      var kept := Distinct(init);
      if !(x == [] || x in kept) {
        DistinctNewIsLast(init, x);
        var d := kept + [x];
        assert Distinct(raws) == d;
        forall k, l | 0 <= k < l < |d|
          ensures d[k] in raws && d[l] in raws && FirstIndex(raws, d[k]) < FirstIndex(raws, d[l])
        {
          if l < |kept| {
            assert d[k] == kept[k] && d[l] == kept[l];
          } else {
            assert d[k] == kept[k];
          }
        }
      } else {
        assert Distinct(raws) == kept;
      }
    }
  }

  /** The texts kept from `init` keep their first index when an item is appended */
  lemma DistinctKeepsFirstIndex(init: seq<String>, x: String)
    ensures forall k :: 0 <= k < |Distinct(init)| ==>
      Distinct(init)[k] in init && Distinct(init)[k] in init + [x] &&
      FirstIndex(init + [x], Distinct(init)[k]) == FirstIndex(init, Distinct(init)[k])
  {
    DistinctMembers(init);
    forall k | 0 <= k < |Distinct(init)|
      ensures Distinct(init)[k] in init && Distinct(init)[k] in init + [x]
      ensures FirstIndex(init + [x], Distinct(init)[k]) == FirstIndex(init, Distinct(init)[k])
    {
      assert Distinct(init)[k] in Distinct(init);
      FirstIndexSnoc(init, x, Distinct(init)[k]);
    }
  }

  /** A text the filter newly keeps occurs first at the appended position,
      after every text kept before it */
  lemma DistinctNewIsLast(init: seq<String>, x: String)
    requires !(x == [] || x in Distinct(init))
    ensures x !in init
    ensures FirstIndex(init + [x], x) == |init|
    ensures forall k :: 0 <= k < |Distinct(init)| ==>
      Distinct(init)[k] in init && FirstIndex(init, Distinct(init)[k]) < |init|
  {
    DistinctMembers(init);
    assert (init + [x])[|init|] == x;
    forall k | 0 <= k < |Distinct(init)| ensures Distinct(init)[k] in init {
      assert Distinct(init)[k] in Distinct(init);
    }
  }

  // ---------------------------------------------------------------------
  // _COMPONENT_SPLIT_RE = ^(.+?)\s*\(([^)]+)\)\s*$
  // ---------------------------------------------------------------------

  /** s[a..a + n] exists and holds no ')' (what [^)] matched) */
  predicate NoCloseParen(s: String, a: nat, n: nat) {
    a + n <= |s| && forall k :: a <= k < a + n ==> s[k] != ')'
  }

  /** A match of the split with a name group of `len` characters, `ws`
      characters for the inner \s* and a status group of `st` characters.
      The final `\s*$` accepts exactly a whitespace remainder: `$` may also
      stop before a final newline, which is whitespace too. */
  predicate SplitMatch(t: String, len: nat, ws: nat, st: nat) {
    && len >= 1
    && NoNewline(t, 0, len)
    && SpaceRun(t, len, ws)
    && len + ws < |t| && t[len + ws] == '('
    && st >= 1
    && NoCloseParen(t, len + ws + 1, st)
    && len + ws + 1 + st < |t| && t[len + ws + 1 + st] == ')'
    && AllSpace(t[len + ws + 2 + st..])
  }

  /** Given the name length, the widths of the other parts are forced: \s* must
      reach the '(' and [^)]+ must reach the first ')' after it */
  lemma SplitWidthsUnique(t: String, len: nat, ws: nat, st: nat, ws': nat, st': nat)
    requires SplitMatch(t, len, ws, st) && SplitMatch(t, len, ws', st')
    ensures ws == ws' && st == st'
  {
    SpaceRunBound(t, len, ws);
    SpaceRunBound(t, len, ws');
    assert !IsSpace(t[len + ws]) && !IsSpace(t[len + ws']);
    assert ws == SpacesFrom(t, len) == ws';
    assert IndexOf(t, ')', len + ws + 1) == Some(len + ws + 1 + st);
    assert IndexOf(t, ')', len + ws + 1) == Some(len + ws + 1 + st');
  }

  /** The engine's attempt with a name group of `len` characters: the widths of
      the other parts, if they fit */
  function SplitWith(t: String, len: nat): (r: Option<(nat, nat)>)
    requires 1 <= len && NoNewline(t, 0, len)
    ensures r.Some? ==> SplitMatch(t, len, r.value.0, r.value.1)
    ensures r.None? <==> forall w: nat, g: nat :: !SplitMatch(t, len, w, g)
  {
    SplitWithNone(t, len);
    var ws := SpacesFrom(t, len);
    var c := len + ws;
    if c < |t| && t[c] == '(' then
      match IndexOf(t, ')', c + 1)
      case Some(e) =>
        if e > c + 1 && AllSpace(t[e + 1..]) then
          assert SplitMatch(t, len, ws, e - c - 1);
          Some((ws, e - c - 1))
        else None
      case None => None
    else None
  }

  /** Any match has the forced widths; used for the failing branches of SplitWith */
  lemma SplitWithNone(t: String, len: nat)
    requires len <= |t|
    ensures forall w: nat, g: nat :: SplitMatch(t, len, w, g) ==>
      && w == SpacesFrom(t, len)
      && t[len + w] == '('
      && IndexOf(t, ')', len + w + 1) == Some(len + w + 1 + g)
  {
    forall w: nat, g: nat | SplitMatch(t, len, w, g)
      ensures w == SpacesFrom(t, len) && IndexOf(t, ')', len + w + 1) == Some(len + w + 1 + g)
    {
      SpaceRunBound(t, len, w);
      assert !IsSpace(t[len + w]);
    }
  }

  /** The shortest name length >= len that admits a match: the lazy (.+?)
      tries len = 1, 2, ... and cannot extend past a newline */
  function FindSplit(t: String, len: nat): (r: Option<(nat, nat, nat)>)
    requires 1 <= len && NoNewline(t, 0, len - 1)
    ensures r.Some? ==> len <= r.value.0 && SplitMatch(t, r.value.0, r.value.1, r.value.2)
    ensures r.Some? ==> forall l: nat, w: nat, g: nat :: l < r.value.0 ==> l < len || !SplitMatch(t, l, w, g)
    ensures r.None? ==> forall l: nat, w: nat, g: nat :: len <= l ==> !SplitMatch(t, l, w, g)
    decreases |t| - len
  {
    if len > |t| || t[len - 1] == '\n' then
      assert forall l: nat, w: nat, g: nat :: len <= l ==> !SplitMatch(t, l, w, g) by {
        forall l: nat, w: nat, g: nat | len <= l ensures !SplitMatch(t, l, w, g) {
          if len <= |t| {
            assert t[len - 1] == '\n';
          }
        }
      }
      None
    else match SplitWith(t, len)
      case Some((w, g)) => Some((len, w, g))
      case None => FindSplit(t, len + 1)
  }

  /** Splits a stripped item text into a component: with a match, the trimmed
      name and status groups, otherwise the whole text with an empty status */
  function SplitComponent(raw: String): (c: Component)
    ensures raw != [] && !IsSpace(raw[0]) ==> c.name != []
    ensures FindSplit(raw, 1).None? ==> c == Component(raw, "")
  {
    match FindSplit(raw, 1)
    case None => Component(raw, "")
    case Some(r) => ComponentFrom(raw, r.0, r.1, r.2)
  }

  /** The component for a split with name group raw[..l] and status group
      raw[l + w + 1..l + w + 1 + g]: both groups trimmed */
  function ComponentFrom(raw: String, l: nat, w: nat, g: nat): (c: Component)
    requires 1 <= l && l + w + 1 + g <= |raw|
    ensures !IsSpace(raw[0]) ==> c.name != []
  {
    assert !IsSpace(raw[0]) ==> Trim(raw[..l]) != [] by {
      if !IsSpace(raw[0]) {
        TrimNonEmpty(raw[..l], 0);
      }
    }
    Component(Trim(raw[..l]), Trim(raw[l + w + 1..l + w + 1 + g]))
  }

  /** The split the engine reports is the match with the shortest name group */
  lemma SplitComponentMatch(raw: String, l: nat, w: nat, g: nat)
    requires SplitMatch(raw, l, w, g) && MinimalSplit(raw, l)
    ensures SplitComponent(raw) == Component(Trim(raw[..l]), Trim(raw[l + w + 1..l + w + 1 + g]))
  {
    FindSplitIs(raw, l, w, g);
    SplitComponentOf(raw, l, w, g);
  }

  /** The component built from the split the scan reports */
  lemma SplitComponentOf(raw: String, l: nat, w: nat, g: nat)
    requires FindSplit(raw, 1) == Some((l, w, g)) && 1 <= l && l + w + 1 + g <= |raw|
    ensures SplitComponent(raw) == Component(Trim(raw[..l]), Trim(raw[l + w + 1..l + w + 1 + g]))
  {
    assert SplitComponent(raw) == ComponentFrom(raw, l, w, g);
  }

  /** The scan reports exactly the match with the shortest name group */
  lemma FindSplitIs(raw: String, l: nat, w: nat, g: nat)
    requires SplitMatch(raw, l, w, g) && MinimalSplit(raw, l)
    ensures FindSplit(raw, 1) == Some((l, w, g))
  {
    FindSplitFinds(raw, l, w, g);
    var r := FindSplit(raw, 1).value;
    MinimalSplitUnique(raw, l, w, g, r.0, r.1, r.2);
  }

  /** Whenever the text has a match, the scan from length 1 reports a minimal one */
  lemma FindSplitFinds(raw: String, l: nat, w: nat, g: nat)
    requires SplitMatch(raw, l, w, g)
    ensures FindSplit(raw, 1).Some?
    ensures SplitMatch(raw, FindSplit(raw, 1).value.0, FindSplit(raw, 1).value.1, FindSplit(raw, 1).value.2)
    ensures MinimalSplit(raw, FindSplit(raw, 1).value.0)
  {
  }

  /** Without a match the whole text is the name */
  lemma SplitComponentNoMatch(raw: String)
    requires forall l: nat, w: nat, g: nat :: !SplitMatch(raw, l, w, g)
    ensures SplitComponent(raw) == Component(raw, "")
  {
    assert FindSplit(raw, 1).None?;
  }

  /** No shorter name group admits a match (the lazy group stops at the first fit) */
  ghost predicate MinimalSplit(t: String, len: nat) {
    forall l: nat, w: nat, g: nat :: l < len ==> !SplitMatch(t, l, w, g)
  }

  /** The match with the shortest name group is unique */
  lemma MinimalSplitUnique(t: String, l: nat, w: nat, g: nat, l': nat, w': nat, g': nat)
    requires SplitMatch(t, l, w, g) && MinimalSplit(t, l)
    requires SplitMatch(t, l', w', g') && MinimalSplit(t, l')
    ensures l == l' && w == w' && g == g'
  {
    assert !(l < l') && !(l' < l);
    SplitWidthsUnique(t, l, w, g, w', g');
  }

  /** Text without '(' is never split */
  lemma SplitWithoutParen(raw: String)
    requires '(' !in raw
    ensures SplitComponent(raw) == Component(raw, "")
  {
    forall l: nat, w: nat, g: nat ensures !SplitMatch(raw, l, w, g) {
      if l + w < |raw| {
        assert raw[l + w] in raw;
      }
    }
    SplitComponentNoMatch(raw);
  }

  /** str(Component) is split back into the same component when the name has
      no '(' and the status no ')', and both are non-empty normalised text */
  lemma SplitComponentString(c: Component)
    requires c.name != [] && Collapsed(c.name) && '(' !in c.name
    requires c.status != [] && Collapsed(c.status) && ')' !in c.status
    ensures SplitComponent(ComponentString(c)) == c
  {
    var name, status := c.name, c.status;
    var t := ComponentString(c);
    var n := |name|;
    assert t == name + " (" + status + ")";
    assert t[..n] == name;
    assert t[n + 2..n + 2 + |status|] == status;
    assert NoNewline(t, 0, n) by {
      forall k | 0 <= k < n ensures t[k] != '\n' {
        assert t[k] == name[k];
      }
    }
    assert NoCloseParen(t, n + 2, |status|) by {
      forall k | n + 2 <= k < n + 2 + |status| ensures t[k] != ')' {
        assert t[k] == status[k - n - 2];
        assert status[k - n - 2] in status;
      }
    }
    assert t[n + 2 + |status| + 1..] == [];
    assert SplitMatch(t, n, 1, |status|);
    assert !IsSpace(name[n - 1]);
    forall l: nat, w: nat, g: nat | l < n ensures !SplitMatch(t, l, w, g) {
      if l + w < n {
        assert t[l + w] == name[l + w];
        assert name[l + w] in name;
      } else {
        assert t[n - 1] == name[n - 1];
      }
    }
    assert MinimalSplit(t, n);
    SplitComponentMatch(t, n, 1, |status|);
    TrimCollapsed(name);
    TrimCollapsed(status);
  }

  /** A component whose text has no '(' is split back into itself */
  lemma SplitComponentNameOnly(c: Component)
    requires c.status == [] && '(' !in c.name
    ensures SplitComponent(ComponentString(c)) == c
  {
    SplitWithoutParen(c.name);
  }

  // ---------------------------------------------------------------------
  // _parse_components
  // ---------------------------------------------------------------------

  /** The stripped text of each <li> group: _strip_html(match.group(1)).strip() */
  function RawTexts(groups: seq<String>): (raws: seq<String>)
    ensures |raws| == |groups|
    ensures forall k :: 0 <= k < |groups| ==> raws[k] == Trim(StripHtml(groups[k]))
  {
    seq(|groups|, k requires 0 <= k < |groups| => Trim(StripHtml(groups[k])))
  }

  function SplitAll(raws: seq<String>): (cs: seq<Component>)
    ensures |cs| == |raws|
    ensures forall k :: 0 <= k < |raws| ==> cs[k] == SplitComponent(raws[k])
  {
    seq(|raws|, k requires 0 <= k < |raws| => SplitComponent(raws[k]))
  }

  /** The components _parse_components returns */
  function ComponentsOf(html: String): seq<Component> {
    SplitAll(Distinct(RawTexts(ItemGroups(html, 0))))
  }

  /** _parse_components: scan the <li> items, skip empty and already-seen
      texts, split the rest */
  method ParseComponents(html: String) returns (components: seq<Component>)
    ensures components == ComponentsOf(html)
  {
    var groups := ItemGroups(html, 0);
    var seen: set<String> := {};
    ghost var kept: seq<String> := [];
    components := [];
    for i := 0 to |groups|
      invariant kept == Distinct(RawTexts(groups[..i]))
      invariant forall x :: x in seen <==> x in kept
      invariant components == SplitAll(kept)
    {
      var raw := Trim(StripHtml(groups[i]));
      RawTextsSnoc(groups, i);
      DistinctSnoc(RawTexts(groups[..i]), raw);
      if raw != [] && raw !in seen {
        SplitAllSnoc(kept, raw);
        seen := seen + {raw};
        kept := kept + [raw];
        components := components + [SplitComponent(raw)];
      }
    }
    assert groups[..|groups|] == groups;
  }

  lemma RawTextsSnoc(groups: seq<String>, i: nat)
    requires i < |groups|
    ensures RawTexts(groups[..i + 1]) == RawTexts(groups[..i]) + [Trim(StripHtml(groups[i]))]
  {
  }

  lemma DistinctSnoc(raws: seq<String>, x: String)
    ensures Distinct(raws + [x]) == if x == [] || x in Distinct(raws) then Distinct(raws) else Distinct(raws) + [x]
  {
    assert (raws + [x])[..|raws|] == raws;
  }

  lemma SplitAllSnoc(raws: seq<String>, x: String)
    ensures SplitAll(raws + [x]) == SplitAll(raws) + [SplitComponent(x)]
  {
  }

  /** Each kept text gives one component, so there are no more components
      than items and no two come from the same text */
  lemma ComponentsFromDistinctTexts(html: String)
    ensures |ComponentsOf(html)| <= |ItemGroups(html, 0)|
    ensures forall i, j :: 0 <= i < j < |Distinct(RawTexts(ItemGroups(html, 0)))| ==>
      Distinct(RawTexts(ItemGroups(html, 0)))[i] != Distinct(RawTexts(ItemGroups(html, 0)))[j]
    ensures forall x :: x in Distinct(RawTexts(ItemGroups(html, 0))) <==>
      x in RawTexts(ItemGroups(html, 0)) && x != []
  {
    var raws := RawTexts(ItemGroups(html, 0));
    DistinctNoDuplicates(raws);
    DistinctMembers(raws);
    DistinctLength(raws);
  }

  lemma {:induction false} DistinctLength(raws: seq<String>)
    ensures |Distinct(raws)| <= |raws|
    decreases |raws|
  {
    if raws != [] {
      DistinctLength(raws[..|raws| - 1]);
    }
  }

  /** Every component has a non-empty name */
  lemma ComponentNamesNonEmpty(html: String)
    ensures forall c :: c in ComponentsOf(html) ==> c.name != []
  {
    var kept := Distinct(RawTexts(ItemGroups(html, 0)));
    DistinctNoDuplicates(RawTexts(ItemGroups(html, 0)));
    DistinctMembers(RawTexts(ItemGroups(html, 0)));
    forall k | 0 <= k < |kept| ensures SplitComponent(kept[k]).name != [] {
      var x := kept[k];
      assert x in RawTexts(ItemGroups(html, 0));
      var j :| 0 <= j < |ItemGroups(html, 0)| && RawTexts(ItemGroups(html, 0))[j] == x;
      assert x == Trim(StripHtml(ItemGroups(html, 0)[j]));
      assert !IsSpace(x[0]);
    }
  }

  /** "Chat Completions (Operational)" splits into name "Chat Completions"
      and status "Operational" */
  lemma SplitComponentExample()
    ensures SplitComponent("Chat Completions (Operational)") == Component("Chat Completions", "Operational")
  {
    var c := Component("Chat Completions", "Operational");
    ExampleNameNormalised();
    ExampleStatusNormalised();
    assert ComponentString(c) == "Chat Completions (Operational)";
    SplitComponentString(c);
  }

  lemma ExampleNameNormalised()
    ensures Collapsed("Chat Completions") && '(' !in "Chat Completions"
  {
    ExampleNameWords();
    JoinCollapsed(["Chat", "Completions"]);
    ExampleNameNoParen();
  }

  lemma ExampleNameWords()
    ensures forall k :: 0 <= k < |["Chat", "Completions"]| ==>
      ["Chat", "Completions"][k] != [] && NoSpace(["Chat", "Completions"][k])
    ensures JoinWith(" ", ["Chat", "Completions"]) == "Chat Completions"
  {
    assert NoSpace("Chat") && NoSpace("Completions");
    assert JoinWith(" ", ["Chat", "Completions"]) == "Chat" + " " + JoinWith(" ", ["Completions"]);
  }

  lemma ExampleNameNoParen()
    ensures '(' !in "Chat Completions"
  {
  }

  lemma ExampleStatusNormalised()
    ensures Collapsed("Operational") && ')' !in "Operational"
  {
    var ws: seq<String> := ["Operational"];
    assert NoSpace(ws[0]);
    JoinCollapsed(ws);
  }
}
