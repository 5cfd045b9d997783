/**
  FeedMonitor: the per-provider polling state machine. The HTTP exchange is
  an input (a server answering the request headers), the XML parser is a
  function from body to parsed tree, and what the notifier prints is kept
  as a log of events. MonitorState and PollSpec give the meaning of one
  poll; the class FeedMonitor performs it step by step on its fields.
*/
module Monitor {
  import opened Wrappers
  import opened Text
  import opened Models
  import opened Feed
  import opened Backoff

  datatype ProviderConfig = ProviderConfig(name: String, feedUrl: String, feedType: String, pollInterval: int)

  datatype TrackerSettings = TrackerSettings(
    logLevel: String, maxRetries: int, baseBackoff: int, showHistorical: bool, maxHistorical: int)

  type Headers = map<String, String>

  const AcceptValue: String := "application/atom+xml, application/rss+xml, application/xml"

  /** A response: status code, the ETag and Last-Modified headers when
      present, and the body text */
  datatype Response = Response(status: int, etag: Option<String>, lastModified: Option<String>, body: String)

  /** What the fetch gives: an exception from the HTTP client, or a response */
  datatype Fetch = NetworkFailure | Got(resp: Response)

  datatype PollError = NetworkError | HttpError(status: int) | FeedError(reason: String) | CounterMissing

  /** How _poll ends: it returns, or it raises */
  datatype PollResult = Completed | Raised(error: PollError)

  /** What the notifier is asked to print */
  datatype Event =
    | NoChanges
    | HistoricalHeader(count: nat)
    | Historical(inc: Incident)
    | Watching
    | NewIncident(inc: Incident)
    | UpdatedIncident(inc: Incident)
    | ErrorReport(error: PollError)
    | RetryReport(attempt: int, wait: real)

  /** The fields of a FeedMonitor; `lastHash` holds the body itself, standing
      for its SHA-256 digest, and the updates map holds fingerprints, standing
      for their MD5 digests */
  datatype MonitorState = MonitorState(
    etag: Option<String>,
    lastModified: Option<String>,
    lastHash: Option<String>,
    seenIds: set<String>,
    seenUpdates: map<String, String>,
    errors: int,
    firstRun: bool,
    count: int,
    log: seq<Event>)

  function Initial(): MonitorState {
    MonitorState(None, None, None, {}, map[], 0, true, 0, [])
  }

  /** The seen ids are exactly the keys of the fingerprint map */
  predicate Valid(st: MonitorState) {
    st.seenIds == st.seenUpdates.Keys
  }

  /** A header value Python treats as true: present and non-empty */
  predicate Truthy(o: Option<String>) {
    o.Some? && o.value != []
  }

  /** The request headers of _poll */
  function ConditionalHeaders(etag: Option<String>, lastModified: Option<String>): (h: Headers)
    ensures "Accept" in h && h["Accept"] == AcceptValue
    ensures "If-None-Match" in h <==> Truthy(etag)
    ensures Truthy(etag) ==> h["If-None-Match"] == etag.value
    ensures "If-Modified-Since" in h <==> Truthy(lastModified)
    ensures Truthy(lastModified) ==> h["If-Modified-Since"] == lastModified.value
    ensures forall k :: k in h ==> k == "Accept" || k == "If-None-Match" || k == "If-Modified-Since"
  {
    var h0 := map["Accept" := AcceptValue];
    var h1 := if Truthy(etag) then h0["If-None-Match" := etag.value] else h0;
    if Truthy(lastModified) then h1["If-Modified-Since" := lastModified.value] else h1
  }

  /** dict.get */
  function MapGet(m: map<String, String>, k: String): (r: Option<String>)
    ensures r.Some? <==> k in m
    ensures r.Some? ==> r.value == m[k]
  {
    if k in m then Some(m[k]) else None
  }

  predicate Debug(settings: TrackerSettings) {
    settings.logLevel == "DEBUG"
  }

  /** The "no changes" line, printed only at DEBUG level */
  function NoteNoChanges(st: MonitorState, settings: TrackerSettings): MonitorState {
    if Debug(settings) then st.(log := st.log + [NoChanges]) else st
  }

  /** incidents[:n], with Python's meaning of a negative n */
  function HistoricalSlice(incs: seq<Incident>, n: int): (r: seq<Incident>)
    ensures r <= incs
    ensures n >= 0 ==> |r| == MinInt(n, |incs|)
    ensures n < 0 ==> |r| == if |incs| + n >= 0 then |incs| + n else 0
  {
    if n >= 0 then incs[..MinInt(n, |incs|)]
    else if |incs| + n >= 0 then incs[..|incs| + n]
    else []
  }

  /** print_incident(inc, is_new=False) for each historical incident */
  function Shown(incs: seq<Incident>): (evs: seq<Event>)
    ensures |evs| == |incs|
  {
    if incs == [] then [] else Shown(incs[..|incs| - 1]) + [Historical(incs[|incs| - 1])]
  }

  function HistoricalEvents(hist: seq<Incident>): seq<Event> {
    [HistoricalHeader(|hist|)] + Shown(hist)
  }

  /** One pass of the seeding loop: remember the id and its fingerprint, count it */
  function SeedOne(st: MonitorState, inc: Incident): MonitorState {
    st.(seenIds := st.seenIds + {inc.id},
        seenUpdates := st.seenUpdates[inc.id := Fingerprint(inc)],
        count := st.count + 1)
  }

  function SeedAll(st: MonitorState, incs: seq<Incident>): (r: MonitorState)
    ensures r.(seenIds := st.seenIds, seenUpdates := st.seenUpdates, count := st.count) == st
  {
    if incs == [] then st else SeedOne(SeedAll(st, incs[..|incs| - 1]), incs[|incs| - 1])
  }

  /** One pass of the diff loop: a new id is added and reported, a known id
      with another fingerprint is updated and reported, anything else is left */
  function DiffOne(st: MonitorState, inc: Incident): MonitorState {
    var h := Fingerprint(inc);
    if inc.id !in st.seenIds then
      st.(log := st.log + [NewIncident(inc)],
          seenIds := st.seenIds + {inc.id},
          seenUpdates := st.seenUpdates[inc.id := h],
          count := st.count + 1)
    else if MapGet(st.seenUpdates, inc.id) != Some(h) then
      st.(log := st.log + [UpdatedIncident(inc)],
          seenUpdates := st.seenUpdates[inc.id := h],
          count := st.count + 1)
    else st
  }

  function DiffAll(st: MonitorState, incs: seq<Incident>): (r: MonitorState)
    ensures r.(seenIds := st.seenIds, seenUpdates := st.seenUpdates, count := st.count, log := st.log) == st
  {
    if incs == [] then st else DiffOne(DiffAll(st, incs[..|incs| - 1]), incs[|incs| - 1])
  }

  /** The first non-empty parse: clear the flag, show the historical slice,
      seed every incident, then print the "watching" line */
  function FirstRun(st: MonitorState, settings: TrackerSettings, incs: seq<Incident>): MonitorState {
    var st1 := st.(firstRun := false);
    var st2 := if settings.showHistorical
      then st1.(log := st1.log + HistoricalEvents(HistoricalSlice(incs, settings.maxHistorical)))
      else st1;
    var st3 := SeedAll(st2, incs);
    st3.(log := st3.log + [Watching])
  }

  /** The tokens after a successful response: a header that is present
      overwrites the stored value, a missing one keeps it */
  function RefreshTokens(st: MonitorState, resp: Response): MonitorState {
    st.(etag := if resp.etag.Some? then resp.etag else st.etag,
        lastModified := if resp.lastModified.Some? then resp.lastModified else st.lastModified)
  }

  /** The processing of a body that differs from the last one: store its
      hash, then parse and diff */
  function ProcessBody(st: MonitorState, cfg: ProviderConfig, settings: TrackerSettings, body: String, doc: XmlDoc)
    : (MonitorState, PollResult)
  {
    var st1 := st.(lastHash := Some(body));
    match FeedIncidents(doc, cfg.feedType, cfg.name)
    case Failure(msg) => (st1, Raised(FeedError(msg)))
    case Success(incs) =>
      if incs == [] then (st1, Completed)
      else if st1.firstRun then (FirstRun(st1, settings, incs), Completed)
      else (DiffAll(st1, incs), Completed)
  }

  /** One call of _poll: the new state and how the call ended */
  function PollSpec(st: MonitorState, cfg: ProviderConfig, settings: TrackerSettings,
                    server: Headers -> Fetch, xml: String -> XmlDoc): (MonitorState, PollResult)
  {
    match server(ConditionalHeaders(st.etag, st.lastModified))
    case NetworkFailure => (st, Raised(NetworkError))
    case Got(resp) =>
      if resp.status == 304 then (NoteNoChanges(st, settings), Completed)
      else if resp.status >= 400 then (st, Raised(HttpError(resp.status)))
      else
        var st1 := RefreshTokens(st, resp);
        if Some(resp.body) == st1.lastHash then (NoteNoChanges(st1, settings), Completed)
        else ProcessBody(st1, cfg, settings, resp.body, xml(resp.body))
  }

  /** One turn of the `start` loop: poll, then reset the error counter, or
      count the error and compute the backoff; the result is the time slept */
  function StepSpec(st: MonitorState, cfg: ProviderConfig, settings: TrackerSettings,
                    server: Headers -> Fetch, xml: String -> XmlDoc, u: real): (MonitorState, real)
  {
    var (st1, res) := PollSpec(st, cfg, settings, server, xml);
    match res
    case Completed => (st1.(errors := 0), cfg.pollInterval as real)
    case Raised(e) =>
      var n := st1.errors + 1;
      var wait := BackoffDelay(n, settings.maxRetries, settings.baseBackoff, u);
      (st1.(errors := n, log := st1.log + [ErrorReport(e), RetryReport(n, wait)]), wait)
  }

  class FeedMonitor {
    const config: ProviderConfig
    const settings: TrackerSettings
    var etag: Option<String>
    var lastModified: Option<String>
    var lastHash: Option<String>
    var seenIds: set<String>
    var seenUpdates: map<String, String>
    var consecutiveErrors: int
    var firstRun: bool
    var incidentCount: int
    var log: seq<Event>

    function State(): MonitorState
      reads this
    {
      MonitorState(etag, lastModified, lastHash, seenIds, seenUpdates,
                   consecutiveErrors, firstRun, incidentCount, log)
    }

    constructor(config: ProviderConfig, settings: TrackerSettings)
      ensures this.config == config && this.settings == settings
      ensures State() == Initial()
    {
      this.config := config;
      this.settings := settings;
      etag := None;
      lastModified := None;
      lastHash := None;
      seenIds := {};
      seenUpdates := map[];
      consecutiveErrors := 0;
      firstRun := true;
      incidentCount := 0;
      log := [];
    }

    /** The historical header and one line per historical incident */
    method ShowHistorical(historical: seq<Incident>)
      modifies this
      ensures State() == old(State()).(log := old(log) + HistoricalEvents(historical))
    {
      log := log + [HistoricalHeader(|historical|)];
      for i := 0 to |historical|
        invariant State() == old(State()).(log := old(log) + [HistoricalHeader(|historical|)] + Shown(historical[..i]))
      {
        assert historical[..i + 1][..i] == historical[..i];
        log := log + [Historical(historical[i])];
      }
      assert historical[..|historical|] == historical;
    }

    /** The seeding loop of the first run */
    method SeedIncidents(incidents: seq<Incident>)
      modifies this
      ensures State() == SeedAll(old(State()), incidents)
    {
      for i := 0 to |incidents|
        invariant State() == SeedAll(old(State()), incidents[..i])
      {
        assert incidents[..i + 1][..i] == incidents[..i];
        var inc := incidents[i];
        seenIds := seenIds + {inc.id};
        seenUpdates := seenUpdates[inc.id := Fingerprint(inc)];
        incidentCount := incidentCount + 1;
      }
      assert incidents[..|incidents|] == incidents;
    }

    /** The diff loop of the later runs */
    method DiffIncidents(incidents: seq<Incident>)
      modifies this
      ensures State() == DiffAll(old(State()), incidents)
    {
      for i := 0 to |incidents|
        invariant State() == DiffAll(old(State()), incidents[..i])
      {
        assert incidents[..i + 1][..i] == incidents[..i];
        var inc := incidents[i];
        var incHash := Fingerprint(inc);
        if inc.id !in seenIds {
          log := log + [NewIncident(inc)];
          seenIds := seenIds + {inc.id};
          seenUpdates := seenUpdates[inc.id := incHash];
          incidentCount := incidentCount + 1;
        } else if MapGet(seenUpdates, inc.id) != Some(incHash) {
          log := log + [UpdatedIncident(inc)];
          seenUpdates := seenUpdates[inc.id := incHash];
          incidentCount := incidentCount + 1;
        }
      }
      assert incidents[..|incidents|] == incidents;
    }

    /** _poll */
    method Poll(server: Headers -> Fetch, xml: String -> XmlDoc) returns (result: PollResult)
      modifies this
      ensures (State(), result) == PollSpec(old(State()), config, settings, server, xml)
    {
      var headers := ConditionalHeaders(etag, lastModified);
      var fetched := server(headers);
      if fetched.NetworkFailure? {
        return Raised(NetworkError);
      }
      var resp := fetched.resp;
      if resp.status == 304 {
        if settings.logLevel == "DEBUG" {
          log := log + [NoChanges];
        }
        return Completed;
      }
      if resp.status >= 400 {
        return Raised(HttpError(resp.status));
      }
      var body := resp.body;
      if resp.etag.Some? {
        etag := resp.etag;
      }
      if resp.lastModified.Some? {
        lastModified := resp.lastModified;
      }
      if Some(body) == lastHash {
        if settings.logLevel == "DEBUG" {
          log := log + [NoChanges];
        }
        return Completed;
      }
      result := HandleBody(body, xml(body));
    }

    /** The rest of _poll for a body that differs from the last one: store
        its hash, parse it, then seed on the first run or diff afterwards */
    method HandleBody(body: String, doc: XmlDoc) returns (result: PollResult)
      modifies this
      ensures (State(), result) == ProcessBody(old(State()), config, settings, body, doc)
    {
      lastHash := Some(body);
      var parsed := ParseFeed(doc, config.feedType, config.name);
      if parsed.Failure? {
        return Raised(FeedError(parsed.error));
      }
      var incidents := parsed.value;
      if incidents == [] {
        return Completed;
      }
      if firstRun {
        firstRun := false;
        if settings.showHistorical {
          ShowHistorical(HistoricalSlice(incidents, settings.maxHistorical));
        }
        SeedIncidents(incidents);
        log := log + [Watching];
        return Completed;
      }
      DiffIncidents(incidents);
      return Completed;
    }

    /** One turn of the `start` loop; returns the number of seconds it sleeps */
    method Step(server: Headers -> Fetch, xml: String -> XmlDoc, u: real) returns (wait: real)
      requires 0.0 <= u < 1.0
      modifies this
      ensures (State(), wait) == StepSpec(old(State()), config, settings, server, xml, u)
    {
      var result := Poll(server, xml);
      if result.Completed? {
        consecutiveErrors := 0;
        wait := config.pollInterval as real;
      } else {
        consecutiveErrors := consecutiveErrors + 1;
        wait := BackoffDelay(consecutiveErrors, settings.maxRetries, settings.baseBackoff, u);
        log := log + [ErrorReport(result.error), RetryReport(consecutiveErrors, wait)];
      }
    }
  }
}
