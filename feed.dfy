/**
  parse_atom_feed, parse_rss_feed and parse_feed over an already-parsed XML
  tree. An entry (Atom) or item (RSS) is a record of the child elements
  the parser looks up; each child is absent or present with optional text.
*/
module Feed {
  import opened Wrappers
  import opened Text
  import opened Models
  import opened Html
  import opened Components

  /** element.find(tag): no child, or a child whose .text may be None */
  datatype Child = Absent | Present(text: Option<String>)

  /** The atom:link child: absent, or present with or without an href attribute */
  datatype LinkChild = NoLink | LinkEl(href: Option<String>)

  datatype AtomEntry = AtomEntry(
    id: Child, title: Child, updated: Child, content: Child, summary: Child, link: LinkChild)

  datatype RssItem = RssItem(
    guid: Child, title: Child, link: Child, pubDate: Child, description: Child, encoded: Child)

  /** The result of ET.fromstring: a ParseError, or the atom:entry children of
      the root and every <item> of the tree in document order */
  datatype XmlDoc = Malformed | Document(entries: seq<AtomEntry>, items: seq<RssItem>)

  /** _get_text: the child's text, with a missing child, missing text and
      empty text all giving None */
  function GetText(c: Child): (r: Option<String>)
    ensures r.Some? <==> c.Present? && c.text.Some? && c.text.value != []
    ensures r.Some? ==> r.value == c.text.value
  {
    match c
    case Present(Some(t)) => if t != [] then Some(t) else None
    case _ => None
  }

  /** `_get_text(...) or fallback` */
  function TextOr(c: Child, fallback: String): (r: String)
    ensures r != [] ==> r == fallback || (GetText(c) == Some(r))
    ensures GetText(c).None? ==> r == fallback
    ensures GetText(c).Some? ==> r == GetText(c).value
  {
    GetText(c).GetOr(fallback)
  }

  /** The HTML an Atom entry's status, summary and components come from:
      the summary text, else the content text, else "" */
  function AtomSource(e: AtomEntry): (r: String)
    ensures GetText(e.summary).Some? ==> r == e.summary.text.value
    ensures GetText(e.summary).None? && GetText(e.content).Some? ==> r == e.content.text.value
    ensures GetText(e.summary).None? && GetText(e.content).None? ==> r == []
  {
    TextOr(e.summary, TextOr(e.content, ""))
  }

  /** The href attribute of atom:link, "" when the link or the attribute is missing */
  function AtomLink(l: LinkChild): (r: String)
    ensures l.LinkEl? && l.href.Some? ==> r == l.href.value
    ensures l.NoLink? || l.href.None? ==> r == []
  {
    match l
    case NoLink => ""
    case LinkEl(h) => h.GetOr("")
  }

  /** The incident parse_atom_feed builds from one entry */
  function AtomIncident(e: AtomEntry, provider: String): (inc: Incident)
    ensures inc.id == TextOr(e.id, "") && inc.link == AtomLink(e.link) && inc.provider == provider
    ensures inc.title == StripHtml(TextOr(e.title, ""))
    ensures inc.status == ParseStatus(AtomSource(e)) && inc.summary == ParseSummary(AtomSource(e))
    ensures inc.components == ComponentsOf(AtomSource(e))
  {
    var html := AtomSource(e);
    Incident(
      TextOr(e.id, ""),
      StripHtml(TextOr(e.title, "")),
      ParseStatus(html),
      Timestamp(TextOr(e.updated, "")),
      AtomLink(e.link),
      ParseSummary(html),
      ComponentsOf(html),
      provider)
  }

  /** An RSS item's id: the guid text, else the link text, else "" */
  function RssId(it: RssItem): (r: String)
    ensures GetText(it.guid).Some? ==> r == it.guid.text.value
    ensures GetText(it.guid).None? && GetText(it.link).Some? ==> r == it.link.text.value
    ensures GetText(it.guid).None? && GetText(it.link).None? ==> r == []
  {
    TextOr(it.guid, TextOr(it.link, ""))
  }

  /** An RSS item's HTML: content:encoded, else description, else "" */
  function RssSource(it: RssItem): (r: String)
    ensures GetText(it.encoded).Some? ==> r == it.encoded.text.value
    ensures GetText(it.encoded).None? && GetText(it.description).Some? ==> r == it.description.text.value
    ensures GetText(it.encoded).None? && GetText(it.description).None? ==> r == []
  {
    TextOr(it.encoded, TextOr(it.description, ""))
  }

  /** The incident parse_rss_feed builds from one item */
  function RssIncident(it: RssItem, provider: String): (inc: Incident)
    ensures inc.id == RssId(it) && inc.link == TextOr(it.link, "") && inc.provider == provider
    ensures inc.title == StripHtml(TextOr(it.title, ""))
    ensures inc.status == ParseStatus(RssSource(it)) && inc.summary == ParseSummary(RssSource(it))
    ensures inc.components == ComponentsOf(RssSource(it))
  {
    var html := RssSource(it);
    Incident(
      RssId(it),
      StripHtml(TextOr(it.title, "")),
      ParseStatus(html),
      Timestamp(TextOr(it.pubDate, "")),
      TextOr(it.link, ""),
      ParseSummary(html),
      ComponentsOf(html),
      provider)
  }

  function AtomIncidents(entries: seq<AtomEntry>, provider: String): (incs: seq<Incident>)
    ensures |incs| == |entries|
  {
    if entries == [] then []
    else AtomIncidents(entries[..|entries| - 1], provider) + [AtomIncident(entries[|entries| - 1], provider)]
  }

  function RssIncidents(items: seq<RssItem>, provider: String): (incs: seq<Incident>)
    ensures |incs| == |items|
  {
    if items == [] then []
    else RssIncidents(items[..|items| - 1], provider) + [RssIncident(items[|items| - 1], provider)]
  }

  /** feed_type.lower() == "rss" */
  predicate IsRss(feedType: String) {
    LowerString(feedType) == "rss"
  }

  /** What parse_feed returns, or the XML error it raises */
  function FeedIncidents(doc: XmlDoc, feedType: String, provider: String): Result<seq<Incident>, String> {
    if doc.Malformed? then Failure("ParseError")
    else if IsRss(feedType) then Success(RssIncidents(doc.items, provider))
    else Success(AtomIncidents(doc.entries, provider))
  }

  lemma AtomIncidentsSnoc(entries: seq<AtomEntry>, i: nat, provider: String)
    requires i < |entries|
    ensures AtomIncidents(entries[..i + 1], provider) == AtomIncidents(entries[..i], provider) + [AtomIncident(entries[i], provider)]
  {
    assert entries[..i + 1][..i] == entries[..i];
  }

  lemma RssIncidentsSnoc(items: seq<RssItem>, i: nat, provider: String)
    requires i < |items|
    ensures RssIncidents(items[..i + 1], provider) == RssIncidents(items[..i], provider) + [RssIncident(items[i], provider)]
  {
    assert items[..i + 1][..i] == items[..i];
  }

  /** parse_atom_feed: one incident per entry, appended in order */
  method ParseAtomFeed(entries: seq<AtomEntry>, provider: String) returns (incidents: seq<Incident>)
    ensures incidents == AtomIncidents(entries, provider)
  {
    incidents := [];
    for i := 0 to |entries|
      invariant incidents == AtomIncidents(entries[..i], provider)
    {
      var e := entries[i];
      var html := AtomSource(e);
      var components := ParseComponents(html);
      var inc := Incident(
        TextOr(e.id, ""),
        StripHtml(TextOr(e.title, "")),
        ParseStatus(html),
        Timestamp(TextOr(e.updated, "")),
        AtomLink(e.link),
        ParseSummary(html),
        components,
        provider);
      assert inc == AtomIncident(e, provider);
      AtomIncidentsSnoc(entries, i, provider);
      incidents := incidents + [inc];
    }
    assert entries[..|entries|] == entries;
  }

  /** parse_rss_feed: one incident per item, appended in order */
  method ParseRssFeed(items: seq<RssItem>, provider: String) returns (incidents: seq<Incident>)
    ensures incidents == RssIncidents(items, provider)
  {
    incidents := [];
    for i := 0 to |items|
      invariant incidents == RssIncidents(items[..i], provider)
    {
      var it := items[i];
      var html := RssSource(it);
      var components := ParseComponents(html);
      var inc := Incident(
        RssId(it),
        StripHtml(TextOr(it.title, "")),
        ParseStatus(html),
        Timestamp(TextOr(it.pubDate, "")),
        TextOr(it.link, ""),
        ParseSummary(html),
        components,
        provider);
      assert inc == RssIncident(it, provider);
      RssIncidentsSnoc(items, i, provider);
      incidents := incidents + [inc];
    }
    assert items[..|items|] == items;
  }

  /** parse_feed: the RSS parser exactly when the feed type lower-cases to
      "rss", the Atom parser otherwise */
  method ParseFeed(doc: XmlDoc, feedType: String, provider: String) returns (r: Result<seq<Incident>, String>)
    ensures r == FeedIncidents(doc, feedType, provider)
  {
    if doc.Malformed? {
      return Failure("ParseError");
    }
    if LowerString(feedType) == "rss" {
      var incs := ParseRssFeed(doc.items, provider);
      return Success(incs);
    }
    var incs := ParseAtomFeed(doc.entries, provider);
    return Success(incs);
  }

  /** The k-th Atom incident is built from the k-th entry */
  lemma {:induction false} AtomIncidentsAt(entries: seq<AtomEntry>, provider: String, k: nat)
    requires k < |entries|
    ensures AtomIncidents(entries, provider)[k] == AtomIncident(entries[k], provider)
    decreases |entries|
  {
    if k < |entries| - 1 {
      AtomIncidentsAt(entries[..|entries| - 1], provider, k);
    }
  }

  /** The k-th RSS incident is built from the k-th item */
  lemma {:induction false} RssIncidentsAt(items: seq<RssItem>, provider: String, k: nat)
    requires k < |items|
    ensures RssIncidents(items, provider)[k] == RssIncident(items[k], provider)
    decreases |items|
  {
    if k < |items| - 1 {
      RssIncidentsAt(items[..|items| - 1], provider, k);
    }
  }

  /** Each parser returns exactly one incident per entry or item, in document
      order, each carrying the provider name */
  lemma FeedShape(doc: XmlDoc, feedType: String, provider: String)
    requires doc.Document?
    ensures FeedIncidents(doc, feedType, provider).Success?
    ensures IsRss(feedType) ==> |FeedIncidents(doc, feedType, provider).value| == |doc.items|
    ensures !IsRss(feedType) ==> |FeedIncidents(doc, feedType, provider).value| == |doc.entries|
    ensures forall k :: 0 <= k < |FeedIncidents(doc, feedType, provider).value| ==>
      FeedIncidents(doc, feedType, provider).value[k].provider == provider
  {
    var incs := FeedIncidents(doc, feedType, provider).value;
    forall k | 0 <= k < |incs| ensures incs[k].provider == provider {
      if IsRss(feedType) {
        RssIncidentsAt(doc.items, provider, k);
      } else {
        AtomIncidentsAt(doc.entries, provider, k);
      }
    }
  }

  /** "RSS", "Rss" and "rss" select the RSS parser; "atom" and "" do not */
  lemma DispatchExamples()
    ensures IsRss("RSS") && IsRss("Rss") && IsRss("rss")
    ensures !IsRss("atom") && !IsRss("") && !IsRss("rss2")
  {
    assert LowerString("RSS") == "rss";
    assert LowerString("Rss") == "rss";
    assert LowerString("atom")[0] == 'a';
    assert |LowerString("rss2")| == 4;
  }
}
