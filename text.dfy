/**
  Character and string helpers with Python's semantics on ASCII text:
  str.isspace() / the regex class \s, str.lower(), str.strip(),
  str.split() with no argument and str.join().
*/
module Text {
  import opened Wrappers

  type String = seq<char>

  /** Python's whitespace on ASCII: space, \t \n \v \f \r and the separators 0x1C-0x1F */
  predicate IsSpace(c: char) {
    c == ' ' || 9 <= c as int <= 13 || 28 <= c as int <= 31
  }

  predicate AllSpace(s: String) {
    forall i :: 0 <= i < |s| ==> IsSpace(s[i])
  }

  predicate NoSpace(s: String) {
    forall i :: 0 <= i < |s| ==> !IsSpace(s[i])
  }

  /** ASCII lower-casing, as used by str.lower() and re.IGNORECASE here */
  function Lower(c: char): char {
    if 'A' <= c <= 'Z' then (c as int + 32) as char else c
  }

  function LowerString(s: String): (r: String)
    ensures |r| == |s|
    ensures forall i :: 0 <= i < |s| ==> r[i] == Lower(s[i])
  {
    seq(|s|, i requires 0 <= i < |s| => Lower(s[i]))
  }

  /** `pat` (given in lower case) occurs case-insensitively in `s` at index `at` */
  predicate MatchesAtCI(s: String, at: nat, pat: String) {
    at + |pat| <= |s| && forall k :: 0 <= k < |pat| ==> Lower(s[at + k]) == pat[k]
  }

  /** A match inside a prefix is a match in the whole text, starting before the cut */
  lemma MatchInPrefix(s: String, n: nat, at: nat, pat: String)
    requires n <= |s| && pat != []
    ensures MatchesAtCI(s[..n], at, pat) ==> at < n && MatchesAtCI(s, at, pat)
  {
  }

  /** The first index at or after `from` holding `c`, if any */
  function IndexOf(s: String, c: char, from: nat): (r: Option<nat>)
    requires from <= |s|
    ensures r.Some? ==> from <= r.value < |s| && s[r.value] == c
    ensures r.Some? ==> forall k :: from <= k < r.value ==> s[k] != c
    ensures r.None? ==> forall k :: from <= k < |s| ==> s[k] != c
    decreases |s| - from
  {
    if from == |s| then None
    else if s[from] == c then Some(from)
    else IndexOf(s, c, from + 1)
  }

  /** The first index at or after `from` where `pat` occurs case-insensitively
      (`str.lower().find(pat)` for a lower-case `pat`) */
  function FindCI(s: String, pat: String, from: nat): (r: Option<nat>)
    requires from <= |s|
    ensures r.Some? ==> from <= r.value && MatchesAtCI(s, r.value, pat)
    ensures r.Some? ==> forall k :: from <= k < r.value ==> !MatchesAtCI(s, k, pat)
    ensures r.None? ==> forall k :: from <= k ==> !MatchesAtCI(s, k, pat)
    decreases |s| - from
  {
    if from + |pat| > |s| then None
    else if MatchesAtCI(s, from, pat) then Some(from)
    else FindCI(s, pat, from + 1)
  }

  /** Length of the longest all-whitespace prefix */
  function LeadingSpaces(s: String): (n: nat)
    ensures n <= |s|
    ensures forall i :: 0 <= i < n ==> IsSpace(s[i])
    ensures n < |s| ==> !IsSpace(s[n])
  {
    if s != [] && IsSpace(s[0]) then 1 + LeadingSpaces(s[1..]) else 0
  }

  /** Length of the whitespace run starting at index `i` */
  function SpacesFrom(s: String, i: nat): (n: nat)
    requires i <= |s|
    ensures i + n <= |s|
    ensures forall k :: i <= k < i + n ==> IsSpace(s[k])
    ensures i + n < |s| ==> !IsSpace(s[i + n])
    decreases |s| - i
  {
    if i < |s| && IsSpace(s[i]) then 1 + SpacesFrom(s, i + 1) else 0
  }

  /** Length of the longest all-whitespace suffix */
  function TrailingSpaces(s: String): (n: nat)
    ensures n <= |s|
    ensures forall i :: |s| - n <= i < |s| ==> IsSpace(s[i])
    ensures n < |s| ==> !IsSpace(s[|s| - 1 - n])
  {
    if s != [] && IsSpace(s[|s| - 1]) then 1 + TrailingSpaces(s[..|s| - 1]) else 0
  }

  /** Length of the longest whitespace-free prefix */
  function WordLength(s: String): (n: nat)
    ensures n <= |s|
    ensures forall i :: 0 <= i < n ==> !IsSpace(s[i])
    ensures n < |s| ==> IsSpace(s[n])
  {
    if s != [] && !IsSpace(s[0]) then 1 + WordLength(s[1..]) else 0
  }

  /** str.strip() with no argument */
  function Trim(s: String): (r: String)
    ensures r == [] || (!IsSpace(r[0]) && !IsSpace(r[|r| - 1]))
  {
    var t := s[LeadingSpaces(s)..];
    t[..|t| - TrailingSpaces(t)]
  }

  /** str.split() with no argument: the maximal runs of non-whitespace, in order */
  function Words(s: String): (ws: seq<String>)
    ensures forall k :: 0 <= k < |ws| ==> ws[k] != [] && NoSpace(ws[k])
    decreases |s|
  {
    var t := s[LeadingSpaces(s)..];
    if t == [] then []
    else
      var n := WordLength(t);
      [t[..n]] + Words(t[n..])
  }

  /** sep.join(parts) */
  function JoinWith(sep: String, parts: seq<String>): String {
    if parts == [] then []
    else if |parts| == 1 then parts[0]
    else parts[0] + sep + JoinWith(sep, parts[1..])
  }

  /** " ".join(s.split()) */
  function Collapse(s: String): String {
    JoinWith(" ", Words(s))
  }

  /** Whitespace-normalised text: every whitespace character is a single
      space with a non-whitespace character on each side. So there is no
      leading or trailing whitespace and no two whitespace characters are adjacent. */
  ghost predicate Collapsed(r: String) {
    && (forall i :: 0 <= i < |r| && IsSpace(r[i]) ==> r[i] == ' ' && 0 < i < |r| - 1)
    && (forall i, j :: 0 <= i < j < |r| && j == i + 1 ==> !IsSpace(r[i]) || !IsSpace(r[j]))
  }

  lemma {:induction false} JoinCollapsed(ws: seq<String>)
    requires forall k :: 0 <= k < |ws| ==> ws[k] != [] && NoSpace(ws[k])
    ensures Collapsed(JoinWith(" ", ws))
    ensures ws != [] ==> JoinWith(" ", ws) != [] && JoinWith(" ", ws)[0] == ws[0][0]
    decreases |ws|
  {
    if |ws| > 1 {
      var rest := JoinWith(" ", ws[1..]);
      JoinCollapsed(ws[1..]);
      var r := ws[0] + " " + rest;
      assert JoinWith(" ", ws) == r;
      forall i | 0 <= i < |r|
        ensures IsSpace(r[i]) ==> r[i] == ' ' && 0 < i < |r| - 1
        ensures i + 1 < |r| ==> !IsSpace(r[i]) || !IsSpace(r[i + 1])
      {
        if i < |ws[0]| {
          assert r[i] == ws[0][i];
        } else if i == |ws[0]| {
          assert r[i + 1] == rest[0] == ws[1][0];
        } else {
          assert r[i] == rest[i - |ws[0]| - 1];
          if i + 1 < |r| {
            assert r[i + 1] == rest[i - |ws[0]|];
          }
        }
      }
    }
  }

  /** str.strip() keeps every non-whitespace character, so it is empty only for all-whitespace text */
  lemma TrimNonEmpty(x: String, k: nat)
    requires k < |x| && !IsSpace(x[k])
    ensures Trim(x) != []
  {
    var a := LeadingSpaces(x);
    assert a <= k;
    var t := x[a..];
    assert t[k - a] == x[k];
    var b := TrailingSpaces(t);
    assert !IsSpace(t[k - a]);
    assert b < |t|;
  }

  /** " ".join(s.split()) is whitespace-normalised, and empty exactly when `s` is all whitespace */
  lemma CollapseIsCollapsed(s: String)
    ensures Collapsed(Collapse(s))
    ensures Collapse(s) == [] <==> AllSpace(s)
  {
    JoinCollapsed(Words(s));
    var t := s[LeadingSpaces(s)..];
    if t == [] {
      assert AllSpace(s);
    } else {
      assert !IsSpace(s[LeadingSpaces(s)]);
    }
  }

  lemma TrimCollapsed(s: String)
    requires Collapsed(s)
    ensures Trim(s) == s
  {
    if s != [] {
      assert !IsSpace(s[0]);
      assert !IsSpace(s[|s| - 1]);
    }
  }

  /** A text starting with a word splits into that word and the split of the rest */
  lemma WordsOfWord(s: String)
    requires s != [] && !IsSpace(s[0])
    ensures Words(s) == [s[..WordLength(s)]] + Words(s[WordLength(s)..])
  {
    assert LeadingSpaces(s) == 0;
    assert s[LeadingSpaces(s)..] == s;
  }

  /** A single whitespace character before a word is skipped by the split */
  lemma WordsOfSpace(u: String)
    requires |u| >= 2 && IsSpace(u[0]) && !IsSpace(u[1])
    ensures Words(u) == Words(u[1..])
  {
    assert LeadingSpaces(u[1..]) == 0;
    assert LeadingSpaces(u) == 1;
  }

  lemma CollapsedAfter(s: String, n: nat)
    requires Collapsed(s) && n < |s| && !IsSpace(s[n])
    ensures Collapsed(s[n..])
  {
    var rest := s[n..];
    forall i | 0 <= i < |rest|
      ensures IsSpace(rest[i]) ==> rest[i] == ' ' && 0 < i < |rest| - 1
      ensures i + 1 < |rest| ==> !IsSpace(rest[i]) || !IsSpace(rest[i + 1])
    {
      assert rest[i] == s[n + i];
      if i + 1 < |rest| {
        assert rest[i + 1] == s[n + i + 1];
      }
    }
  }

  lemma JoinCons(sep: String, w: String, ws: seq<String>)
    requires ws != []
    ensures JoinWith(sep, [w] + ws) == w + sep + JoinWith(sep, ws)
  {
    assert ([w] + ws)[1..] == ws;
  }

  lemma SplitAround(s: String, n: nat)
    requires n < |s|
    ensures s == s[..n] + [s[n]] + s[n + 1..]
  {
  }

  /** Normalised text is a fixed point of " ".join(s.split()) */
  lemma {:induction false} CollapseFixed(s: String)
    requires Collapsed(s)
    ensures Collapse(s) == s
    decreases |s|
  {
    if s != [] {
      assert !IsSpace(s[0]);
      WordsOfWord(s);
      var n := WordLength(s);
      if n == |s| {
        assert s[..n] == s;
        assert s[n..] == [];
      } else {
        var rest := s[n + 1..];
        assert IsSpace(s[n]);
        assert s[n] == ' ' && n + 1 < |s|;
        assert !IsSpace(s[n + 1]);
        WordsOfSpace(s[n..]);
        assert s[n..][1..] == rest;
        CollapsedAfter(s, n + 1);
        CollapseFixed(rest);
        WordsOfWord(rest);
        JoinCons(" ", s[..n], Words(rest));
        SplitAround(s, n);
      }
    }
  }
}
