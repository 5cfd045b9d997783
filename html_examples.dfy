/**
  The source test's example of several tags, `<b>Hello</b> <i>World</i>`,
  derived from the stepwise properties of the tag substitution: each tag
  span becomes one space and other text is copied.
*/
module HtmlExamples {
  import opened Wrappers
  import opened Text
  import opened Html

  /** Whether the scan at index i meets a tag span */
  predicate TagAt(s: String, i: nat)
    requires i < |s|
  {
    s[i] == '<' && i + 1 < |s| && s[i + 1] != '>' && IndexOf(s, '>', i + 1).Some?
  }

  /** Where the scan resumes after index i */
  function NextScan(s: String, i: nat): (n: nat)
    requires i < |s|
    ensures i < n <= |s|
  {
    if TagAt(s, i) then IndexOf(s, '>', i + 1).value + 1 else i + 1
  }

  /** What the scan emits at index i */
  function Emitted(s: String, i: nat): String
    requires i < |s|
  {
    if TagAt(s, i) then " " else [s[i]]
  }

  lemma ReplaceTagsEmits(s: String, i: nat)
    requires i < |s|
    ensures ReplaceTags(s, i) == Emitted(s, i) + ReplaceTags(s, NextScan(s, i))
  {
    ReplaceTagsStep(s, i);
  }

  /** One scan step on s at i + j is the same step on s[i..] at j */
  lemma ScanStepSuffix(s: String, i: nat, j: nat)
    requires i + j < |s|
    ensures Emitted(s, i + j) == Emitted(s[i..], j)
    ensures NextScan(s, i + j) == i + NextScan(s[i..], j)
  {
    var t := s[i..];
    assert t[j] == s[i + j];
    if j + 1 < |t| {
      assert t[j + 1] == s[i + j + 1];
    }
    IndexOfSuffix(s, i, j + 1);
  }

  /** The substitution only looks ahead: scanning s from i + j is scanning s[i..] from j */
  lemma {:induction false} ReplaceTagsSuffix(s: String, i: nat, j: nat)
    requires i + j <= |s|
    ensures ReplaceTags(s, i + j) == ReplaceTags(s[i..], j)
    decreases |s| - i - j
  {
    if i + j < |s| {
      var t := s[i..];
      ReplaceTagsEmits(s, i + j);
      ReplaceTagsEmits(t, j);
      ScanStepSuffix(s, i, j);
      var n := NextScan(t, j);
      ReplaceTagsSuffix(s, i, n);
      SameAfterPrefix(ReplaceTags(s, i + j), ReplaceTags(t, j), Emitted(t, j),
                      ReplaceTags(s, i + n), ReplaceTags(t, n));
    }
  }

  lemma SameAfterPrefix(x: String, y: String, e: String, p: String, q: String)
    requires x == e + p && y == e + q && p == q
    ensures x == y
  {
  }

  /** IndexOf on a suffix finds the same '>', shifted */
  lemma IndexOfSuffix(s: String, i: nat, j: nat)
    requires i + j <= |s|
    ensures IndexOf(s[i..], '>', j).None? ==> IndexOf(s, '>', i + j).None?
    ensures IndexOf(s[i..], '>', j).Some? ==> IndexOf(s, '>', i + j) == Some(i + IndexOf(s[i..], '>', j).value)
  {
    var t := s[i..];
    match IndexOf(t, '>', j)
    case Some(e) =>
      forall k | i + j <= k < i + e ensures s[k] != '>' {
        assert s[k] == t[k - i];
      }
      assert s[i + e] == t[e];
      IndexOfIs(s, i + j, i + e);
    case None =>
      forall k | i + j <= k < |s| ensures s[k] != '>' {
        assert s[k] == t[k - i];
      }
  }

  /** A tag span followed by any text: the span becomes one space */
  lemma TagThen(tag: String, y: String)
    requires |tag| >= 3 && tag[0] == '<' && tag[|tag| - 1] == '>'
    requires forall k :: 0 < k < |tag| - 1 ==> tag[k] != '>'
    ensures ReplaceTags(tag + y, 0) == " " + ReplaceTags(y, 0)
  {
    var s := tag + y;
    ReplaceTagsSpan(s, 0, |tag| - 1);
    ReplaceTagsSuffix(s, |tag|, 0);
    assert s[|tag|..] == y;
  }

  /** Text without '<' followed by any text is copied unchanged */
  lemma PlainThen(w: String, y: String)
    requires '<' !in w
    ensures ReplaceTags(w + y, 0) == w + ReplaceTags(y, 0)
  {
    var s := w + y;
    ReplaceTagsPlain(s, 0, |w|);
    ReplaceTagsSuffix(s, |w|, 0);
    assert s[..|w|] == w && s[|w|..] == y;
  }

  /** The source test's shape `<b>w1</b> <i>w2</i>` */
  function TwoTags(w1: String, w2: String): String {
    "<b>" + (w1 + ("</b>" + (" " + ("<i>" + (w2 + "</i>")))))
  }

  /** The four tags of TwoTags become one space each */
  lemma TwoTagsReplaced(w1: String, w2: String)
    requires '<' !in w1 && '<' !in w2
    ensures ReplaceTags(TwoTags(w1, w2), 0) == " " + (w1 + (" " + (" " + (" " + (w2 + " ")))))
  {
    TagThen("</i>", []);
    assert "</i>" + [] == "</i>";
    PlainThen(w2, "</i>");
    TagThen("<i>", w2 + "</i>");
    PlainThen(" ", "<i>" + (w2 + "</i>"));
    TagThen("</b>", " " + ("<i>" + (w2 + "</i>")));
    PlainThen(w1, "</b>" + (" " + ("<i>" + (w2 + "</i>"))));
    TagThen("<b>", w1 + ("</b>" + (" " + ("<i>" + (w2 + "</i>")))));
  }

  /** Leading whitespace is skipped by the split */
  lemma WordsOfLeadingSpace(x: String)
    ensures Words(" " + x) == Words(x)
  {
    var s := " " + x;
    assert s[1..] == x;
    assert LeadingSpaces(s) == 1 + LeadingSpaces(x);
    assert s[LeadingSpaces(s)..] == x[LeadingSpaces(x)..];
  }

  /** A word followed by whitespace or nothing is split off first */
  lemma WordsOfWordThen(w: String, x: String)
    requires w != [] && NoSpace(w) && (x == [] || IsSpace(x[0]))
    ensures Words(w + x) == [w] + Words(x)
  {
    var s := w + x;
    WordsOfWord(s);
    WordLengthOf(w, x);
    assert s[..|w|] == w && s[|w|..] == x;
  }

  lemma {:induction false} WordLengthOf(w: String, x: String)
    requires NoSpace(w) && (x == [] || IsSpace(x[0]))
    ensures WordLength(w + x) == |w|
    decreases |w|
  {
    if w != [] {
      WordLengthOf(w[1..], x);
      assert (w + x)[1..] == w[1..] + x;
    }
  }

  /** Two words separated and surrounded by whitespace join with one space */
  lemma CollapseTwoWords(w1: String, w2: String)
    requires w1 != [] && w2 != [] && NoSpace(w1) && NoSpace(w2)
    ensures Collapse(" " + (w1 + (" " + (" " + (" " + (w2 + " ")))))) == w1 + " " + w2
  {
    WordsTwoWords(w1, w2);
    var ws := [w1, w2];
    assert ws[1..] == [w2];
    assert JoinWith(" ", ws) == w1 + " " + JoinWith(" ", [w2]);
  }

  /** The split of the substituted two-tag text */
  lemma WordsTwoWords(w1: String, w2: String)
    requires w1 != [] && w2 != [] && NoSpace(w1) && NoSpace(w2)
    ensures Words(" " + (w1 + (" " + (" " + (" " + (w2 + " ")))))) == [w1, w2]
  {
    var t3 := " " + (" " + (" " + (w2 + " ")));
    WordsLastWord(w2);
    WordsOfWordThen(w1, t3);
    assert [w1] + [w2] == [w1, w2];
    WordsOfLeadingSpace(w1 + t3);
  }

  /** The split of the text after the first word */
  lemma WordsLastWord(w2: String)
    requires w2 != [] && NoSpace(w2)
    ensures Words(" " + (" " + (" " + (w2 + " ")))) == [w2]
  {
    var t0 := w2 + " ";
    WordsOfSpaceOnly();
    WordsOfWordThen(w2, " ");
    WordsOfLeadingSpace(t0);
    WordsOfLeadingSpace(" " + t0);
    WordsOfLeadingSpace(" " + (" " + t0));
  }

  lemma WordsOfSpaceOnly()
    ensures Words(" ") == []
  {
    WordsOfLeadingSpace([]);
    assert " " + [] == " ";
  }

  /** `_strip_html` of `<b>w1</b> <i>w2</i>` is `w1 w2` */
  lemma StripHtmlTwoTags(w1: String, w2: String)
    requires w1 != [] && w2 != [] && NoSpace(w1) && NoSpace(w2) && '<' !in w1 && '<' !in w2
    ensures StripHtml(TwoTags(w1, w2)) == w1 + " " + w2
  {
    TwoTagsReplaced(w1, w2);
    CollapseTwoWords(w1, w2);
    CollapseIsCollapsed(" " + (w1 + (" " + (" " + (" " + (w2 + " "))))));
    TrimCollapsed(w1 + " " + w2);
  }

  /** _strip_html("<b>Hello</b> <i>World</i>") == "Hello World" */
  lemma StripHtmlExample()
    ensures StripHtml("<b>Hello</b> <i>World</i>") == "Hello World"
  {
    HelloWorld();
    TwoTagsExample();
    StripHtmlTwoTags("Hello", "World");
  }

  /** "Hello" and "World" meet the requirements of StripHtmlTwoTags */
  lemma HelloWorld()
    ensures NoSpace("Hello") && NoSpace("World") && '<' !in "Hello" && '<' !in "World"
    ensures "Hello" + " " + "World" == "Hello World"
  {
  }

  /** The source test's input is TwoTags("Hello", "World") */
  lemma TwoTagsExample()
    ensures TwoTags("Hello", "World") == "<b>Hello</b> <i>World</i>"
  {
  }
}
