/**
  The value types of the tracker: an affected component and an incident
  (both frozen dataclasses, so equality is field-wise), with their text
  renderings and the incident fingerprint used to detect updates.
*/
module Models {
  import opened Wrappers
  import opened Text

  /** One affected service/product, e.g. name "Chat Completions", status "Operational" */
  datatype Component = Component(name: String, status: String)

  /** The feed's timestamp text; turning it into a date is not modelled */
  datatype Timestamp = Timestamp(raw: String)

  datatype Incident = Incident(
    id: String,
    title: String,
    status: String,
    updated: Timestamp,
    link: String,
    summary: String,
    components: seq<Component>,
    provider: String)

  /** str(Component): "name (status)", or just the name when the status is empty */
  function ComponentString(c: Component): (r: String)
    ensures c.status == [] ==> r == c.name
    ensures c.status != [] ==> r == c.name + " (" + c.status + ")"
  {
    if c.status != [] then c.name + " (" + c.status + ")" else c.name
  }

  function Names(cs: seq<Component>): (ns: seq<String>)
    ensures |ns| == |cs| && forall i :: 0 <= i < |cs| ==> ns[i] == cs[i].name
  {
    seq(|cs|, i requires 0 <= i < |cs| => cs[i].name)
  }

  /** Incident.product_names: the component names joined by ", ", or "N/A" without components */
  function ProductNames(inc: Incident): (r: String)
    ensures inc.components == [] ==> r == "N/A"
    ensures inc.components != [] ==> r == JoinWith(", ", Names(inc.components))
  {
    if inc.components == [] then "N/A" else JoinWith(", ", Names(inc.components))
  }

  /** The text FeedMonitor._incident_hash feeds to MD5: status, summary and
      product names separated by "|". MD5 is taken to be injective, so the
      fingerprint is represented by this text itself. */
  function Fingerprint(inc: Incident): String {
    inc.status + "|" + inc.summary + "|" + ProductNames(inc)
  }

  /** Splits at every ", ": the reference inverse of JoinWith(", ", _) */
  function SplitNames(s: String): (parts: seq<String>)
    ensures |parts| >= 1
    decreases |s|
  {
    if |s| < 2 then [s]
    else if s[0] == ',' && s[1] == ' ' then [[]] + SplitNames(s[2..])
    else
      var rest := SplitNames(s[1..]);
      [[s[0]] + rest[0]] + rest[1..]
  }

  lemma {:induction false} SplitNamesWord(w: String, tail: String)
    requires ',' !in w
    ensures SplitNames(w + ", " + tail) == [w] + SplitNames(tail)
    decreases |w|
  {
    if w == [] {
      assert ([] + ", " + tail)[2..] == tail;
    } else {
      assert (w + ", " + tail)[1..] == w[1..] + ", " + tail;
      SplitNamesWord(w[1..], tail);
      assert [w[0]] + w[1..] == w;
    }
  }

  /** Names without commas are recovered from the product-names text */
  lemma {:induction false} SplitJoinNames(ns: seq<String>)
    requires ns != []
    requires forall i :: 0 <= i < |ns| ==> ',' !in ns[i]
    ensures SplitNames(JoinWith(", ", ns)) == ns
    decreases |ns|
  {
    if |ns| == 1 {
      SplitNamesSingle(ns[0]);
    } else {
      SplitJoinNames(ns[1..]);
      SplitNamesWord(ns[0], JoinWith(", ", ns[1..]));
      assert [ns[0]] + ns[1..] == ns;
    }
  }

  lemma {:induction false} SplitNamesSingle(w: String)
    requires ',' !in w
    ensures SplitNames(w) == [w]
    decreases |w|
  {
    if |w| >= 2 {
      assert w[0] != ',';
      SplitNamesSingle(w[1..]);
      assert [w[0]] + w[1..] == w;
    }
  }

  /** Two incidents with comma-free component names and the same product-names
      text have the same component names. Both lists are non-empty because
      `[]` and `[Component("N/A", ...)]` share the text "N/A" */
  lemma ProductNamesDetermineNames(a: Incident, b: Incident)
    requires forall c :: c in a.components ==> ',' !in c.name
    requires forall c :: c in b.components ==> ',' !in c.name
    requires a.components != [] && b.components != []
    requires ProductNames(a) == ProductNames(b)
    ensures Names(a.components) == Names(b.components)
  {
    var na, nb := Names(a.components), Names(b.components);
    assert forall i :: 0 <= i < |na| ==> ',' !in na[i] by {
      forall i | 0 <= i < |na| ensures ',' !in na[i] {
        assert a.components[i] in a.components;
      }
    }
    assert forall i :: 0 <= i < |nb| ==> ',' !in nb[i] by {
      forall i | 0 <= i < |nb| ensures ',' !in nb[i] {
        assert b.components[i] in b.components;
      }
    }
    SplitJoinNames(na);
    SplitJoinNames(nb);
  }

  lemma {:induction false} FirstBar(x: String, y: String)
    requires '|' !in x
    ensures IndexOf(x + "|" + y, '|', 0) == Some(|x|)
  {
    var l := x + "|" + y;
    assert l[|x|] == '|';
    assert forall k :: 0 <= k < |x| ==> l[k] == x[k];
  }

  /** x + "|" + y determines x and y when x has no "|" */
  lemma SplitAtBar(x: String, y: String, x': String, y': String)
    requires '|' !in x && '|' !in x'
    requires x + "|" + y == x' + "|" + y'
    ensures x == x' && y == y'
  {
    FirstBar(x, y);
    FirstBar(x', y');
    var l := x + "|" + y;
    assert x == l[..|x|] && x' == l[..|x'|];
    assert y == l[|x| + 1..] && y' == l[|x'| + 1..];
  }

  /** Equal fingerprints mean equal status, summary and product names, as long
      as neither status nor summary contains "|" */
  lemma FingerprintInjective(a: Incident, b: Incident)
    requires '|' !in a.status && '|' !in b.status
    requires '|' !in a.summary && '|' !in b.summary
    requires Fingerprint(a) == Fingerprint(b)
    ensures a.status == b.status && a.summary == b.summary
    ensures ProductNames(a) == ProductNames(b)
  {
    assert Fingerprint(a) == a.status + "|" + (a.summary + "|" + ProductNames(a));
    assert Fingerprint(b) == b.status + "|" + (b.summary + "|" + ProductNames(b));
    SplitAtBar(a.status, a.summary + "|" + ProductNames(a), b.status, b.summary + "|" + ProductNames(b));
    SplitAtBar(a.summary, ProductNames(a), b.summary, ProductNames(b));
  }

  lemma SameSuffix(x: String, y: String, t: String)
    ensures x + t == y + t ==> x == y
  {
    if x + t == y + t {
      assert |x| == |y|;
      assert x == (x + t)[..|x|];
      assert y == (y + t)[..|y|];
    }
  }

  /** A change of status alone always changes the fingerprint, whatever the texts contain */
  lemma StatusChangeChangesFingerprint(a: Incident, b: Incident)
    requires a.summary == b.summary && ProductNames(a) == ProductNames(b)
    requires a.status != b.status
    ensures Fingerprint(a) != Fingerprint(b)
  {
    var tail := "|" + a.summary + "|" + ProductNames(a);
    assert Fingerprint(a) == a.status + tail;
    assert Fingerprint(b) == b.status + tail;
    SameSuffix(a.status, b.status, tail);
  }
}
