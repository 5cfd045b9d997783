/**
  The embedded-HTML extractors of the feed parser. Each of the source's
  regular expressions is modelled by the match the Python `re` engine
  picks: the leftmost start, then greedy quantifiers as long as possible
  and lazy ones as short as possible. Each search of the status and
  component patterns is stated twice: as a function that computes it and
  as a predicate saying which spans match. The tag substitution is stated
  span by span: a tag becomes one space, text without `<` is copied.
*/
module Html {
  import opened Wrappers
  import opened Text
  import opened Models

  // ---------------------------------------------------------------------
  // _HTML_TAG_RE = <[^>]+> and _strip_html
  // ---------------------------------------------------------------------

  /** _HTML_TAG_RE.sub(" ", s[i..]): each `<`, one or more non-`>`, `>` span,
      scanning left to right, becomes one space */
  function ReplaceTags(s: String, i: nat): String
    requires i <= |s|
    decreases |s| - i
  {
    if i == |s| then []
    else if s[i] == '<' && i + 1 < |s| && s[i + 1] != '>' && IndexOf(s, '>', i + 1).Some? then
      " " + ReplaceTags(s, IndexOf(s, '>', i + 1).value + 1)
    else [s[i]] + ReplaceTags(s, i + 1)
  }

  /** No span `<[^>]+>` is left: a '<' that is not directly followed by '>'
      has no '>' anywhere after it */
  ghost predicate NoTag(r: String) {
    forall i, j :: 0 <= i < j < |r| && r[i] == '<' && r[i + 1] != '>' ==> r[j] != '>'
  }

  lemma {:induction false} ReplaceTagsKeepsNoGt(s: String, i: nat)
    requires i <= |s|
    requires forall k :: i <= k < |s| ==> s[k] != '>'
    ensures forall k :: 0 <= k < |ReplaceTags(s, i)| ==> ReplaceTags(s, i)[k] != '>'
    decreases |s| - i
  {
    if i < |s| {
      assert IndexOf(s, '>', i + 1 as nat) == None by {
        if i + 1 <= |s| {
          assert forall k :: i + 1 <= k < |s| ==> s[k] != '>';
        }
      }
      ReplaceTagsKeepsNoGt(s, i + 1);
    }
  }

  /** After the substitution no tag span remains */
  lemma {:induction false} ReplaceTagsNoTag(s: String, i: nat)
    requires i <= |s|
    ensures NoTag(ReplaceTags(s, i))
    decreases |s| - i
  {
    if i < |s| {
      var r := ReplaceTags(s, i);
      if s[i] == '<' && i + 1 < |s| && s[i + 1] != '>' && IndexOf(s, '>', i + 1).Some? {
        var e := IndexOf(s, '>', i + 1).value + 1;
        ReplaceTagsNoTag(s, e);
        var rest := ReplaceTags(s, e);
        assert r == " " + rest;
        forall a, b | 0 <= a < b < |r| && r[a] == '<' && r[a + 1] != '>' ensures r[b] != '>' {
          assert a > 0;
          assert r[a] == rest[a - 1] && r[a + 1] == rest[a] && r[b] == rest[b - 1];
        }
      } else {
        ReplaceTagsNoTag(s, i + 1);
        var rest := ReplaceTags(s, i + 1);
        assert r == [s[i]] + rest;
        if s[i] == '<' {
          if i + 1 < |s| && s[i + 1] == '>' {
            assert rest[0] == '>';
          } else if i + 1 < |s| {
            ReplaceTagsKeepsNoGt(s, i + 1);
          }
        }
        forall a, b | 0 <= a < b < |r| && r[a] == '<' && r[a + 1] != '>' ensures r[b] != '>' {
          if a > 0 {
            assert r[a] == rest[a - 1] && r[a + 1] == rest[a] && r[b] == rest[b - 1];
          } else {
            assert r[b] == rest[b - 1];
          }
        }
      }
    }
  }

  /** The first '>' at or after `from` is at `e` */
  lemma IndexOfIs(s: String, from: nat, e: nat)
    requires from <= e < |s| && s[e] == '>'
    requires forall k :: from <= k < e ==> s[k] != '>'
    ensures IndexOf(s, '>', from) == Some(e)
  {
  }

  /** A tag span s[i..e + 1] becomes one space, and the scan resumes after its '>' */
  lemma ReplaceTagsSpan(s: String, i: nat, e: nat)
    requires i + 1 < e < |s| && s[i] == '<' && s[e] == '>'
    requires forall k :: i < k < e ==> s[k] != '>'
    ensures ReplaceTags(s, i) == " " + ReplaceTags(s, e + 1)
  {
    IndexOfIs(s, i + 1, e);
  }

  /** One unfolding of the substitution at index i */
  lemma ReplaceTagsStep(s: String, i: nat)
    requires i < |s|
    ensures (s[i] == '<' && i + 1 < |s| && s[i + 1] != '>' && IndexOf(s, '>', i + 1).Some?) ==>
      ReplaceTags(s, i) == " " + ReplaceTags(s, IndexOf(s, '>', i + 1).value + 1)
    ensures !(s[i] == '<' && i + 1 < |s| && s[i + 1] != '>' && IndexOf(s, '>', i + 1).Some?) ==>
      ReplaceTags(s, i) == [s[i]] + ReplaceTags(s, i + 1)
  {
  }

  lemma ConsSlice(s: String, i: nat, j: nat, rest: String)
    requires i < j <= |s|
    ensures [s[i]] + (s[i + 1..j] + rest) == s[i..j] + rest
  {
    assert s[i..j] == [s[i]] + s[i + 1..j];
  }

  /** A stretch s[i..j] without '<' is copied unchanged */
  lemma {:induction false} ReplaceTagsPlain(s: String, i: nat, j: nat)
    requires i <= j <= |s|
    requires forall k :: i <= k < j ==> s[k] != '<'
    ensures ReplaceTags(s, i) == s[i..j] + ReplaceTags(s, j)
    decreases j - i
  {
    if i < j {
      ReplaceTagsStep(s, i);
      ReplaceTagsPlain(s, i + 1, j);
      ConsSlice(s, i, j, ReplaceTags(s, j));
    }
  }

  /** Text without '<' passes the substitution unchanged */
  lemma {:induction false} ReplaceTagsIdentity(s: String, i: nat)
    requires i <= |s|
    requires forall k :: i <= k < |s| ==> s[k] != '<'
    ensures ReplaceTags(s, i) == s[i..]
    decreases |s| - i
  {
    if i < |s| {
      ReplaceTagsIdentity(s, i + 1);
      assert s[i..] == [s[i]] + s[i + 1..];
    }
  }

  /** One step of " ".join(s.split()): the first word s[a..a + n], then a
      space and the join of the rest when the rest holds another word */
  lemma CollapseCons(s: String, a: nat, n: nat)
    requires a == LeadingSpaces(s) < |s| && n == WordLength(s[a..])
    ensures a + n <= |s| && n >= 1
    ensures Words(s[a + n..]) == [] ==> Collapse(s) == s[a..a + n]
    ensures Words(s[a + n..]) != [] ==> Collapse(s) == s[a..a + n] + " " + Collapse(s[a + n..])
  {
    WordsCons(s, a, n);
    JoinFirst(s[a..a + n], Words(s[a + n..]));
  }

  /** str.split() takes the first word off after the leading whitespace */
  lemma WordsCons(s: String, a: nat, n: nat)
    requires a == LeadingSpaces(s) < |s| && n == WordLength(s[a..])
    ensures a + n <= |s| && n >= 1
    ensures Words(s) == [s[a..a + n]] + Words(s[a + n..])
  {
    SliceOfSlice(s, a, n);
    assert Words(s) == [s[a..][..n]] + Words(s[a..][n..]);
  }

  lemma SliceOfSlice(s: String, a: nat, n: nat)
    requires a + n <= |s|
    ensures s[a..][..n] == s[a..a + n] && s[a..][n..] == s[a + n..]
  {
  }

  /** " ".join of a list with a first element */
  lemma JoinFirst(w: String, ws: seq<String>)
    ensures ws == [] ==> JoinWith(" ", [w] + ws) == w
    ensures ws != [] ==> JoinWith(" ", [w] + ws) == w + " " + JoinWith(" ", ws)
  {
    if ws != [] {
      JoinCons(" ", w, ws);
    } else {
      assert [w] + ws == [w];
    }
  }

  /** " ".join(s.split()) only moves characters of `s` and spaces */
  lemma {:induction false} CollapseKeepsChars(s: String)
    ensures forall c :: c in Collapse(s) && !IsSpace(c) ==> c in s
    decreases |s|
  {
    var a := LeadingSpaces(s);
    if a < |s| {
      var n := WordLength(s[a..]);
      CollapseCons(s, a, n);
      var u := s[a + n..];
      if Words(u) != [] {
        CollapseKeepsChars(u);
        var r := Collapse(u);
        forall c | c in s[a..a + n] + " " + r && !IsSpace(c) ensures c in s {
          if c in s[a..a + n] {
            var k :| a <= k < a + n && s[k] == c;
          } else {
            assert c in r;
            assert c in u;
          }
        }
      } else {
        forall c | c in s[a..a + n] ensures c in s {
          var k :| a <= k < a + n && s[k] == c;
        }
      }
    }
  }

  /** A slice of a text without tag spans has none either */
  lemma NoTagSlice(s: String, k: nat, e: nat)
    requires NoTag(s) && k <= e <= |s|
    ensures NoTag(s[k..e])
  {
    var u := s[k..e];
    forall i, j | 0 <= i < j < |u| && u[i] == '<' && u[i + 1] != '>' ensures u[j] != '>' {
      assert u[i] == s[k + i] && u[i + 1] == s[k + i + 1] && u[j] == s[k + j];
    }
  }

  /** Whitespace normalisation never creates a tag span */
  lemma {:induction false} CollapseNoTag(s: String)
    requires NoTag(s)
    ensures NoTag(Collapse(s))
    decreases |s|
  {
    var a := LeadingSpaces(s);
    if a < |s| {
      var n := WordLength(s[a..]);
      if Words(s[a + n..]) != [] {
        NoTagSlice(s, a + n, |s|);
        CollapseNoTag(s[a + n..]);
        CollapseNoTagStep(s, a, n);
      } else {
        CollapseNoTagLast(s, a, n);
      }
    }
  }

  /** The case of CollapseNoTag where the first word is the only one */
  lemma CollapseNoTagLast(s: String, a: nat, n: nat)
    requires NoTag(s) && a == LeadingSpaces(s) < |s| && n == WordLength(s[a..])
    requires Words(s[a + n..]) == []
    ensures NoTag(Collapse(s))
  {
    CollapseCons(s, a, n);
    NoTagSlice(s, a, a + n);
  }

  /** The step of CollapseNoTag that joins the first word to the rest */
  lemma CollapseNoTagStep(s: String, a: nat, n: nat)
    requires NoTag(s) && a == LeadingSpaces(s) < |s| && n == WordLength(s[a..])
    requires Words(s[a + n..]) != [] && NoTag(Collapse(s[a + n..]))
    ensures NoTag(Collapse(s))
  {
    CollapseCons(s, a, n);
    var w, u := s[a..a + n], s[a + n..];
    assert u != [] && IsSpace(u[0]) by {
      assert s[a..][n] == s[a + n];
    }
    NoTagSplit(s, a, n);
    CollapseKeepsChars(u);
    JoinNoTag(w, u, Collapse(u));
  }

  /** A tag-free text split after its leading whitespace and first word */
  lemma NoTagSplit(s: String, a: nat, n: nat)
    requires NoTag(s) && a + n <= |s|
    ensures NoTag(s[a..a + n] + s[a + n..])
  {
    assert s[a..a + n] + s[a + n..] == s[a..];
    NoTagSlice(s, a, |s|);
  }

  /** A word, a space and a tag-free text whose visible characters all come
      from `u` hold no tag span when the word followed by `u` holds none */
  lemma JoinNoTag(w: String, u: String, rest: String)
    requires NoTag(w + u) && u != [] && IsSpace(u[0]) && NoTag(rest)
    requires forall c :: c in rest && !IsSpace(c) ==> c in u
    ensures NoTag(w + " " + rest)
  {
    var r := w + " " + rest;
    forall i, j | 0 <= i < j < |r| && r[i] == '<' && r[i + 1] != '>' ensures r[j] != '>' {
      if i < |w| {
        JoinNoTagFirst(w, u, rest, i, j);
      } else if i > |w| {
        assert r[i] == rest[i - |w| - 1] && r[i + 1] == rest[i - |w|] && r[j] == rest[j - |w| - 1];
      }
    }
  }

  /** JoinNoTag for a `<` inside the word */
  lemma JoinNoTagFirst(w: String, u: String, rest: String, i: nat, j: nat)
    requires NoTag(w + u) && u != [] && IsSpace(u[0])
    requires forall c :: c in rest && !IsSpace(c) ==> c in u
    requires i < |w| && i < j < |w| + 1 + |rest|
    requires (w + " " + rest)[i] == '<' && (w + " " + rest)[i + 1] != '>'
    ensures (w + " " + rest)[j] != '>'
  {
    var r, t := w + " " + rest, w + u;
    assert t[i] == '<';
    assert t[i + 1] != '>' by {
      if i + 1 < |w| {
        assert t[i + 1] == r[i + 1];
      } else {
        assert t[i + 1] == u[0];
      }
    }
    if j < |w| {
      assert r[j] == t[j];
    } else if j > |w| {
      assert '>' !in u by {
        forall q | 0 <= q < |u| ensures u[q] != '>' {
          assert u[q] == t[|w| + q];
        }
      }
      assert r[j] == rest[j - |w| - 1];
    }
  }

  /** _strip_html: tags become spaces, then whitespace is collapsed and trimmed.
      The result is whitespace-normalised and holds no tag span */
  function StripHtml(s: String): (r: String)
    ensures Collapsed(r)
    ensures NoTag(r)
  {
    var t := ReplaceTags(s, 0);
    CollapseIsCollapsed(t);
    TrimCollapsed(Collapse(t));
    ReplaceTagsNoTag(s, 0);
    CollapseNoTag(t);
    Trim(Collapse(t))
  }

  /** Text without '<' and with normalised whitespace is returned unchanged */
  lemma StripHtmlIdentity(s: String)
    requires '<' !in s && Collapsed(s)
    ensures StripHtml(s) == s
  {
    ReplaceTagsIdentity(s, 0);
    assert ReplaceTags(s, 0) == s;
    CollapseFixed(s);
    TrimCollapsed(s);
  }

  /** The result never has a leftover tag span before whitespace normalisation,
      and is empty exactly when the text outside tags is all whitespace */
  lemma StripHtmlEmptyIff(s: String)
    ensures NoTag(ReplaceTags(s, 0))
    ensures StripHtml(s) == [] <==> AllSpace(ReplaceTags(s, 0))
  {
    ReplaceTagsNoTag(s, 0);
    var t := ReplaceTags(s, 0);
    CollapseIsCollapsed(t);
    TrimCollapsed(Collapse(t));
  }

  /** _strip_html("") == "" */
  lemma StripHtmlEmpty()
    ensures StripHtml("") == ""
  {
    assert Collapsed("");
  }

  // ---------------------------------------------------------------------
  // _STATUS_RE = <b>Status:\s*(.+?)</b>, case-insensitive, '.' not matching '\n'
  // ---------------------------------------------------------------------

  const StatusOpen: String := "<b>status:"
  const BoldClose: String := "</b>"

  /** A match of _STATUS_RE at index p: `<b>Status:` (any case), then `ws`
      whitespace characters, then a group of `len` >= 1 characters without a
      newline, then `</b>` (any case) */
  predicate StatusMatch(s: String, p: nat, ws: nat, len: nat) {
    && MatchesAtCI(s, p, StatusOpen)
    && p + |StatusOpen| + ws + len + |BoldClose| <= |s|
    && SpaceRun(s, p + |StatusOpen|, ws)
    && len >= 1
    && NoNewline(s, p + |StatusOpen| + ws, len)
    && MatchesAtCI(s, p + |StatusOpen| + ws + len, BoldClose)
  }

  /** s[a..a + n] exists and is all whitespace (what \s matched) */
  predicate SpaceRun(s: String, a: nat, n: nat) {
    a + n <= |s| && forall k :: a <= k < a + n ==> IsSpace(s[k])
  }

  /** s[a..a + n] exists and holds no newline (what '.' matched without DOTALL) */
  predicate NoNewline(s: String, a: nat, n: nat) {
    a + n <= |s| && forall k :: a <= k < a + n ==> s[k] != '\n'
  }

  /** No whitespace run from `a` is longer than SpacesFrom(s, a) */
  lemma SpaceRunBound(s: String, a: nat, w: nat)
    requires a <= |s|
    ensures SpaceRun(s, a, w) ==> w <= SpacesFrom(s, a)
  {
    var n := SpacesFrom(s, a);
    if a + n < |s| {
      assert !IsSpace(s[a + n]);
    }
  }

  /** A match found by the engine: start, width of \s*, length of the group */
  datatype Marker = Marker(start: nat, ws: nat, len: nat)

  function GroupStart(m: Marker): nat {
    m.start + |StatusOpen| + m.ws
  }

  function MarkerEnd(m: Marker): nat {
    GroupStart(m) + m.len + |BoldClose|
  }

  function GroupText(s: String, m: Marker): String
    requires StatusMatch(s, m.start, m.ws, m.len)
  {
    s[GroupStart(m)..GroupStart(m) + m.len]
  }

  /** The match `re.search` reports from index `from`: leftmost start, then
      the widest \s*, then the shortest group */
  ghost predicate FirstStatusMatch(s: String, from: nat, m: Marker) {
    && from <= m.start
    && StatusMatch(s, m.start, m.ws, m.len)
    && (forall p: nat, w: nat, g: nat :: from <= p < m.start ==> !StatusMatch(s, p, w, g))
    && (forall w: nat, g: nat :: m.ws < w ==> !StatusMatch(s, m.start, w, g))
    && (forall g: nat :: g < m.len ==> !StatusMatch(s, m.start, m.ws, g))
  }

  /** The shortest group of length >= len for a match at p whose \s* took ws characters */
  function LazyStatusGroup(s: String, p: nat, ws: nat, len: nat): (r: Option<nat>)
    requires MatchesAtCI(s, p, StatusOpen) && len >= 1
    requires SpaceRun(s, p + |StatusOpen|, ws)
    requires NoNewline(s, p + |StatusOpen| + ws, len - 1)
    ensures r.Some? ==> len <= r.value && StatusMatch(s, p, ws, r.value)
    ensures r.Some? ==> forall g: nat :: len <= g < r.value ==> !StatusMatch(s, p, ws, g)
    ensures r.None? ==> forall g: nat :: len <= g ==> !StatusMatch(s, p, ws, g)
    decreases |s| - len
  {
    var q := p + |StatusOpen| + ws;
    if q + len + |BoldClose| > |s| then None
    else if s[q + len - 1] == '\n' then None
    else if MatchesAtCI(s, q + len, BoldClose) then Some(len)
    else LazyStatusGroup(s, p, ws, len + 1)
  }

  /** Backtracking of the greedy \s*: widths ws, ws - 1, ..., 0 in turn */
  function StatusWidths(s: String, p: nat, ws: nat): (r: Option<Marker>)
    requires MatchesAtCI(s, p, StatusOpen)
    requires SpaceRun(s, p + |StatusOpen|, ws)
    ensures r.Some? ==> r.value.start == p && r.value.ws <= ws && StatusMatch(s, p, r.value.ws, r.value.len)
    ensures r.Some? ==> forall w: nat, g: nat :: r.value.ws < w <= ws ==> !StatusMatch(s, p, w, g)
    ensures r.Some? ==> forall g: nat :: g < r.value.len ==> !StatusMatch(s, p, r.value.ws, g)
    ensures r.None? ==> forall w: nat, g: nat :: w <= ws ==> !StatusMatch(s, p, w, g)
    decreases ws
  {
    match LazyStatusGroup(s, p, ws, 1)
    case Some(g) => Some(Marker(p, ws, g))
    case None => if ws == 0 then None else StatusWidths(s, p, ws - 1)
  }

  /** The engine's attempt at one start index */
  function StatusAt(s: String, p: nat): (r: Option<Marker>)
    requires p <= |s|
    ensures r.Some? ==> r.value.start == p && StatusMatch(s, p, r.value.ws, r.value.len)
    ensures r.Some? ==> forall w: nat, g: nat :: r.value.ws < w ==> !StatusMatch(s, p, w, g)
    ensures r.Some? ==> forall g: nat :: g < r.value.len ==> !StatusMatch(s, p, r.value.ws, g)
    ensures r.None? ==> forall w: nat, g: nat :: !StatusMatch(s, p, w, g)
  {
    if MatchesAtCI(s, p, StatusOpen) then
      var n := SpacesFrom(s, p + |StatusOpen|);
      // a whitespace run longer than n would include the non-whitespace character at its end
      assert forall w: nat, g: nat :: StatusMatch(s, p, w, g) ==> w <= n by {
        forall w: nat, g: nat ensures StatusMatch(s, p, w, g) ==> w <= n {
          SpaceRunBound(s, p + |StatusOpen|, w);
        }
      }
      StatusWidths(s, p, n)
    else None
  }

  /** _STATUS_RE.search(s, from) */
  function FindStatus(s: String, from: nat): (r: Option<Marker>)
    requires from <= |s|
    ensures r.Some? ==> FirstStatusMatch(s, from, r.value)
    ensures r.None? ==> forall p: nat, w: nat, g: nat :: from <= p ==> !StatusMatch(s, p, w, g)
    decreases |s| - from
  {
    if from == |s| then None
    else match StatusAt(s, from)
      case Some(m) => Some(m)
      case None =>
        var r := FindStatus(s, from + 1);
        FindStatusStep(s, from, r);
        r
  }

  /** No match at `from` moves the search result one index to the left */
  lemma FindStatusStep(s: String, from: nat, r: Option<Marker>)
    requires forall w: nat, g: nat :: !StatusMatch(s, from, w, g)
    requires r.Some? ==> FirstStatusMatch(s, from + 1, r.value)
    requires r.None? ==> forall p: nat, w: nat, g: nat :: from + 1 <= p ==> !StatusMatch(s, p, w, g)
    ensures r.Some? ==> FirstStatusMatch(s, from, r.value)
    ensures r.None? ==> forall p: nat, w: nat, g: nat :: from <= p ==> !StatusMatch(s, p, w, g)
  {
    if r.None? {
      forall p: nat, w: nat, g: nat | from <= p ensures !StatusMatch(s, p, w, g) {
        if p > from {
          assert from + 1 <= p;
        }
      }
    }
  }

  /** The match the engine reports is the only one satisfying the description */
  lemma FirstStatusMatchUnique(s: String, from: nat, m: Marker, m': Marker)
    requires FirstStatusMatch(s, from, m) && FirstStatusMatch(s, from, m')
    ensures m == m'
  {
  }

  /** _parse_status: the tag-stripped group of the first status marker, or "Unknown" */
  function ParseStatus(html: String): (r: String)
    ensures (forall p: nat, w: nat, g: nat :: !StatusMatch(html, p, w, g)) ==> r == "Unknown"
    ensures forall m :: FirstStatusMatch(html, 0, m) ==> r == Trim(StripHtml(GroupText(html, m)))
  {
    match FindStatus(html, 0)
    case None => "Unknown"
    case Some(m) =>
      assert forall m' :: FirstStatusMatch(html, 0, m') ==> m' == m by {
        forall m' | FirstStatusMatch(html, 0, m') ensures m' == m {
          FirstStatusMatchUnique(html, 0, m, m');
        }
      }
      Trim(StripHtml(GroupText(html, m)))
  }

  // ---------------------------------------------------------------------
  // _parse_summary_text
  // ---------------------------------------------------------------------

  /** _STATUS_RE.sub("", s[from..]): every marker the scan finds is deleted,
      the scan resuming after each deleted marker */
  function RemoveMarkers(s: String, from: nat): (r: String)
    requires from <= |s|
    ensures (forall p: nat, w: nat, g: nat :: from <= p ==> !StatusMatch(s, p, w, g)) ==> r == s[from..]
    ensures FindStatus(s, from).Some? ==> |r| <= |s| - from - |StatusOpen| - 1 - |BoldClose|
    ensures |r| <= |s| - from
    decreases |s| - from
  {
    match FindStatus(s, from)
    case None => s[from..]
    case Some(m) => s[from..m.start] + RemoveMarkers(s, MarkerEnd(m))
  }

  /** The substitution deletes exactly the first marker: the text before it
      is kept and the scan goes on right after its `</b>` */
  lemma RemoveMarkersSpan(s: String, from: nat, m: Marker)
    requires from <= |s| && FirstStatusMatch(s, from, m)
    ensures MarkerEnd(m) <= |s|
    ensures RemoveMarkers(s, from) == s[from..m.start] + RemoveMarkers(s, MarkerEnd(m))
  {
    FirstStatusMatchUnique(s, from, FindStatus(s, from).value, m);
  }

  /** A text with one status marker loses that marker and keeps everything
      before and after it */
  lemma RemoveOneMarker(s: String, m: Marker)
    requires FirstStatusMatch(s, 0, m)
    requires forall p: nat, w: nat, g: nat :: MarkerEnd(m) <= p ==> !StatusMatch(s, p, w, g)
    ensures RemoveMarkers(s, 0) == s[..m.start] + s[MarkerEnd(m)..]
  {
    RemoveMarkersSpan(s, 0, m);
  }

  const AffectedMarker: String := "<b>affected components</b>"

  /** The text the summary is taken from: the marker-free text, cut at the
      first case-insensitive "<b>affected components</b>" */
  function SummarySource(html: String): (r: String)
    ensures r <= RemoveMarkers(html, 0)
    ensures forall k :: !MatchesAtCI(r, k, AffectedMarker)
    ensures r == RemoveMarkers(html, 0) || MatchesAtCI(RemoveMarkers(html, 0), |r|, AffectedMarker)
    ensures forall k: nat :: k < |r| ==> !MatchesAtCI(RemoveMarkers(html, 0), k, AffectedMarker)
  {
    var text := RemoveMarkers(html, 0);
    match FindCI(text, AffectedMarker, 0)
    case None => text
    case Some(i) =>
      var r := text[..i];
      forall k: nat ensures !MatchesAtCI(r, k, AffectedMarker) {
        MatchInPrefix(text, i, k, AffectedMarker);
      }
      r
  }

  /** _parse_summary_text: the final `.strip()` changes nothing, so the
      summary is `_strip_html` of the marker-free text before the cut */
  function ParseSummary(html: String): (r: String)
    ensures Collapsed(r)
    ensures r == StripHtml(SummarySource(html))
  {
    var r := Trim(StripHtml(SummarySource(html)));
    TrimCollapsed(StripHtml(SummarySource(html)));
    r
  }

  /** Without a status marker or an "affected components" marker the summary is the stripped text */
  lemma SummaryOfPlainText(html: String)
    requires forall p: nat, w: nat, g: nat :: !StatusMatch(html, p, w, g)
    requires forall k :: !MatchesAtCI(html, k, AffectedMarker)
    ensures ParseSummary(html) == StripHtml(html)
  {
    assert RemoveMarkers(html, 0) == html;
    assert FindCI(html, AffectedMarker, 0).None?;
    TrimCollapsed(StripHtml(html));
  }
}
