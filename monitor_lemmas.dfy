/**
  Properties of one poll and of one turn of the monitoring loop: what a
  304 leaves alone, when tokens are refreshed, the hash short circuit, the
  first-run seeding, the classification of later incidents, and the
  invariants over all cycles.
*/
module MonitorLemmas {
  import opened Wrappers
  import opened Text
  import opened Models
  import opened Feed
  import opened Backoff
  import opened Monitor

  /** The ids of a list of incidents */
  function IdsOf(incs: seq<Incident>): (ids: set<String>)
    ensures forall i :: 0 <= i < |incs| ==> incs[i].id in ids
    ensures forall x :: x in ids ==> exists i :: 0 <= i < |incs| && incs[i].id == x
  {
    set i | 0 <= i < |incs| :: incs[i].id
  }

  /** No later incident of the list has the same id as incs[i] */
  predicate LastWithId(incs: seq<Incident>, i: nat)
    requires i < |incs|
  {
    forall j :: i < j < |incs| ==> incs[j].id != incs[i].id
  }

  predicate DistinctIds(incs: seq<Incident>) {
    forall i, j :: 0 <= i < j < |incs| ==> incs[i].id != incs[j].id
  }

  predicate OkResponse(resp: Response) {
    resp.status != 304 && resp.status < 400
  }

  /** The answer the server gives to the request headers of state st */
  function Answer(st: MonitorState, server: Headers -> Fetch): Fetch {
    server(ConditionalHeaders(st.etag, st.lastModified))
  }

  lemma IdsOfSnoc(incs: seq<Incident>)
    requires incs != []
    ensures IdsOf(incs) == IdsOf(incs[..|incs| - 1]) + {incs[|incs| - 1].id}
  {
    var init := incs[..|incs| - 1];
    forall x | x in IdsOf(incs) ensures x in IdsOf(init) + {incs[|incs| - 1].id} {
      var i :| 0 <= i < |incs| && incs[i].id == x;
      if i < |init| {
        assert init[i] == incs[i];
      }
    }
    forall x | x in IdsOf(init) ensures x in IdsOf(incs) {
      var i :| 0 <= i < |init| && init[i].id == x;
      assert incs[i] == init[i];
    }
  }

  // ---------------------------------------------------------------------
  // The seeding and diff loops
  // ---------------------------------------------------------------------

  /** Seeding remembers every id and counts every incident */
  lemma {:induction false} SeedAllIds(st: MonitorState, incs: seq<Incident>)
    ensures SeedAll(st, incs).seenIds == st.seenIds + IdsOf(incs)
    ensures SeedAll(st, incs).seenUpdates.Keys == st.seenUpdates.Keys + IdsOf(incs)
    ensures SeedAll(st, incs).count == st.count + |incs|
    decreases |incs|
  {
    if incs != [] {
      SeedAllIds(st, incs[..|incs| - 1]);
      IdsOfSnoc(incs);
    }
  }

  /** Seeding stores for each id the fingerprint of its last occurrence */
  lemma {:induction false} SeedAllLatest(st: MonitorState, incs: seq<Incident>)
    ensures forall i :: 0 <= i < |incs| && LastWithId(incs, i) ==>
      incs[i].id in SeedAll(st, incs).seenUpdates &&
      SeedAll(st, incs).seenUpdates[incs[i].id] == Fingerprint(incs[i])
    decreases |incs|
  {
    if incs != [] {
      var init := incs[..|incs| - 1];
      var last := incs[|incs| - 1];
      SeedAllLatest(st, init);
      var r := SeedAll(st, incs);
      forall i | 0 <= i < |incs| && LastWithId(incs, i)
        ensures incs[i].id in r.seenUpdates && r.seenUpdates[incs[i].id] == Fingerprint(incs[i])
      {
        if i < |init| {
          assert incs[i] == init[i];
          assert LastWithId(init, i);
          assert incs[i].id != last.id;
        }
      }
    }
  }

  lemma SeedAllFacts(st: MonitorState, incs: seq<Incident>)
    ensures SeedAll(st, incs).seenIds == st.seenIds + IdsOf(incs)
    ensures SeedAll(st, incs).seenUpdates.Keys == st.seenUpdates.Keys + IdsOf(incs)
    ensures SeedAll(st, incs).count == st.count + |incs|
    ensures SeedAll(st, incs).log == st.log
    ensures forall i :: 0 <= i < |incs| && LastWithId(incs, i) ==>
      incs[i].id in SeedAll(st, incs).seenUpdates &&
      SeedAll(st, incs).seenUpdates[incs[i].id] == Fingerprint(incs[i])
  {
    SeedAllIds(st, incs);
    SeedAllLatest(st, incs);
  }

  /** The diff remembers every id */
  lemma {:induction false} DiffAllIds(st: MonitorState, incs: seq<Incident>)
    ensures DiffAll(st, incs).seenIds == st.seenIds + IdsOf(incs)
    ensures DiffAll(st, incs).seenUpdates.Keys == st.seenUpdates.Keys + IdsOf(incs)
    decreases |incs|
  {
    if incs != [] {
      DiffAllIds(st, incs[..|incs| - 1]);
      IdsOfSnoc(incs);
      DiffOneIds(DiffAll(st, incs[..|incs| - 1]), incs[|incs| - 1]);
    }
  }

  /** One pass of the diff loop adds the incident's id to the seen ids and the map's keys */
  lemma DiffOneIds(st: MonitorState, inc: Incident)
    ensures DiffOne(st, inc).seenIds == st.seenIds + {inc.id}
    ensures DiffOne(st, inc).seenUpdates.Keys == st.seenUpdates.Keys + {inc.id}
  {
    if inc.id in st.seenIds && MapGet(st.seenUpdates, inc.id) == Some(Fingerprint(inc)) {
      assert inc.id in st.seenUpdates.Keys;
    }
  }

  /** The diff stores for each id the fingerprint of its last occurrence */
  lemma {:induction false} DiffAllLatest(st: MonitorState, incs: seq<Incident>)
    ensures forall i :: 0 <= i < |incs| && LastWithId(incs, i) ==>
      incs[i].id in DiffAll(st, incs).seenUpdates &&
      DiffAll(st, incs).seenUpdates[incs[i].id] == Fingerprint(incs[i])
    decreases |incs|
  {
    if incs != [] {
      var init := incs[..|incs| - 1];
      var last := incs[|incs| - 1];
      DiffAllLatest(st, init);
      var r := DiffAll(st, incs);
      assert last.id in r.seenUpdates && r.seenUpdates[last.id] == Fingerprint(last);
      forall i | 0 <= i < |incs| && LastWithId(incs, i)
        ensures incs[i].id in r.seenUpdates && r.seenUpdates[incs[i].id] == Fingerprint(incs[i])
      {
        if i < |init| {
          assert incs[i] == init[i];
          assert LastWithId(init, i);
          assert incs[i].id != last.id;
        }
      }
    }
  }

  /** The diff only appends reports, one per increment of the counter, each
      a new or an updated incident */
  lemma {:induction false} DiffAllLog(st: MonitorState, incs: seq<Incident>)
    ensures |st.log| <= |DiffAll(st, incs).log| && DiffAll(st, incs).log[..|st.log|] == st.log
    ensures DiffAll(st, incs).count - st.count == |DiffAll(st, incs).log| - |st.log|
    ensures forall k :: |st.log| <= k < |DiffAll(st, incs).log| ==>
      DiffAll(st, incs).log[k].NewIncident? || DiffAll(st, incs).log[k].UpdatedIncident?
    decreases |incs|
  {
    if incs != [] {
      var init := incs[..|incs| - 1];
      DiffAllLog(st, init);
      var m := DiffAll(st, init);
      var r := DiffAll(st, incs);
      assert r.log[..|m.log|] == m.log;
      assert m.log[..|st.log|] == st.log;
      assert r.log[..|st.log|] == st.log;
      forall k | |st.log| <= k < |r.log|
        ensures r.log[k].NewIncident? || r.log[k].UpdatedIncident?
      {
        if k < |m.log| {
          assert r.log[k] == m.log[k];
        }
      }
    }
  }

  lemma DiffAllFacts(st: MonitorState, incs: seq<Incident>)
    ensures DiffAll(st, incs).seenIds == st.seenIds + IdsOf(incs)
    ensures DiffAll(st, incs).seenUpdates.Keys == st.seenUpdates.Keys + IdsOf(incs)
    ensures forall i :: 0 <= i < |incs| && LastWithId(incs, i) ==>
      incs[i].id in DiffAll(st, incs).seenUpdates &&
      DiffAll(st, incs).seenUpdates[incs[i].id] == Fingerprint(incs[i])
    ensures |st.log| <= |DiffAll(st, incs).log| && DiffAll(st, incs).log[..|st.log|] == st.log
    ensures DiffAll(st, incs).count - st.count == |DiffAll(st, incs).log| - |st.log|
    ensures forall k :: |st.log| <= k < |DiffAll(st, incs).log| ==>
      DiffAll(st, incs).log[k].NewIncident? || DiffAll(st, incs).log[k].UpdatedIncident?
  {
    DiffAllIds(st, incs);
    DiffAllLatest(st, incs);
    DiffAllLog(st, incs);
  }

  /** Incidents that are all seen with their current fingerprint produce nothing */
  lemma {:induction false} DiffAllUnchanged(st: MonitorState, incs: seq<Incident>)
    requires forall i :: 0 <= i < |incs| ==> incs[i].id in st.seenIds
    requires forall i :: 0 <= i < |incs| ==>
      incs[i].id in st.seenUpdates && st.seenUpdates[incs[i].id] == Fingerprint(incs[i])
    ensures DiffAll(st, incs) == st
    decreases |incs|
  {
    if incs != [] {
      var init := incs[..|incs| - 1];
      assert forall i :: 0 <= i < |init| ==> init[i] == incs[i];
      DiffAllUnchanged(st, init);
    }
  }

  /** Diffing the same feed again, once it has been diffed, reports nothing
      and changes nothing, as long as its ids are distinct */
  lemma DiffRepeatIsNoop(st: MonitorState, incs: seq<Incident>)
    requires DistinctIds(incs)
    ensures DiffAll(DiffAll(st, incs), incs) == DiffAll(st, incs)
  {
    DiffAllFacts(st, incs);
    var r := DiffAll(st, incs);
    forall i | 0 <= i < |incs|
      ensures incs[i].id in r.seenUpdates && r.seenUpdates[incs[i].id] == Fingerprint(incs[i])
    {
      assert LastWithId(incs, i);
    }
    DiffAllUnchanged(r, incs);
  }

  /** A single incident whose id is unseen is reported as new and counted */
  lemma DiffNew(st: MonitorState, inc: Incident)
    requires inc.id !in st.seenIds
    ensures DiffAll(st, [inc]).log == st.log + [NewIncident(inc)]
    ensures DiffAll(st, [inc]).seenIds == st.seenIds + {inc.id}
    ensures DiffAll(st, [inc]).seenUpdates == st.seenUpdates[inc.id := Fingerprint(inc)]
    ensures DiffAll(st, [inc]).count == st.count + 1
  {
    assert [inc][..0] == [];
  }

  /** A seen incident whose fingerprint changed is reported as updated and counted */
  lemma DiffUpdated(st: MonitorState, inc: Incident)
    requires Valid(st) && inc.id in st.seenIds && st.seenUpdates[inc.id] != Fingerprint(inc)
    ensures DiffAll(st, [inc]).log == st.log + [UpdatedIncident(inc)]
    ensures DiffAll(st, [inc]).seenIds == st.seenIds
    ensures DiffAll(st, [inc]).seenUpdates == st.seenUpdates[inc.id := Fingerprint(inc)]
    ensures DiffAll(st, [inc]).count == st.count + 1
  {
    assert [inc][..0] == [];
  }

  /** A seen incident with the stored fingerprint changes nothing */
  lemma DiffUnchanged(st: MonitorState, inc: Incident)
    requires Valid(st) && inc.id in st.seenIds && st.seenUpdates[inc.id] == Fingerprint(inc)
    ensures DiffAll(st, [inc]) == st
  {
    assert [inc][..0] == [];
  }

  // ---------------------------------------------------------------------
  // One poll
  // ---------------------------------------------------------------------

  /** A 304 changes no field; at DEBUG level it only logs "no changes" */
  lemma NotModifiedKeepsState(st: MonitorState, cfg: ProviderConfig, settings: TrackerSettings,
                              server: Headers -> Fetch, xml: String -> XmlDoc)
    requires Answer(st, server).Got? && Answer(st, server).resp.status == 304
    ensures PollSpec(st, cfg, settings, server, xml).1 == Completed
    ensures PollSpec(st, cfg, settings, server, xml).0.(log := st.log) == st
    ensures PollSpec(st, cfg, settings, server, xml).0.log == st.log + (if Debug(settings) then [NoChanges] else [])
  {
  }

  /** After a successful response each token is the header's value when the
      header is present and the old value otherwise, whatever happens next */
  lemma TokensRefreshed(st: MonitorState, cfg: ProviderConfig, settings: TrackerSettings,
                        server: Headers -> Fetch, xml: String -> XmlDoc)
    requires Answer(st, server).Got? && OkResponse(Answer(st, server).resp)
    ensures var r := Answer(st, server).resp;
      && PollSpec(st, cfg, settings, server, xml).0.etag == (if r.etag.Some? then r.etag else st.etag)
      && PollSpec(st, cfg, settings, server, xml).0.lastModified == (if r.lastModified.Some? then r.lastModified else st.lastModified)
  {
    var resp := Answer(st, server).resp;
    if Some(resp.body) != st.lastHash {
      PollProcesses(st, cfg, settings, server, xml);
      ProcessKeepsTokens(RefreshTokens(st, resp), cfg, settings, resp.body, xml(resp.body));
    }
  }

  /** Processing a body never touches the caching tokens */
  lemma ProcessKeepsTokens(st: MonitorState, cfg: ProviderConfig, settings: TrackerSettings,
                           body: String, doc: XmlDoc)
    ensures ProcessBody(st, cfg, settings, body, doc).0.etag == st.etag
    ensures ProcessBody(st, cfg, settings, body, doc).0.lastModified == st.lastModified
  {
    match FeedIncidents(doc, cfg.feedType, cfg.name)
    case Failure(_) =>
    case Success(incs) =>
      if incs != [] {
        if st.firstRun {
          ProcessFirstRun(st, cfg, settings, body, doc, incs);
        } else {
          ProcessLaterRun(st, cfg, settings, body, doc, incs);
        }
      }
  }



  /** A body equal to the last one is not parsed: the outcome does not depend
      on the parser, and nothing but the tokens (and the DEBUG log) changes */
  lemma UnchangedBodySkipsParse(st: MonitorState, cfg: ProviderConfig, settings: TrackerSettings,
                                server: Headers -> Fetch, xml1: String -> XmlDoc, xml2: String -> XmlDoc)
    requires Answer(st, server).Got? && OkResponse(Answer(st, server).resp)
    requires Some(Answer(st, server).resp.body) == st.lastHash
    ensures PollSpec(st, cfg, settings, server, xml1) == PollSpec(st, cfg, settings, server, xml2)
    ensures PollSpec(st, cfg, settings, server, xml1).1 == Completed
    ensures PollSpec(st, cfg, settings, server, xml1).0.(etag := st.etag, lastModified := st.lastModified, log := st.log) == st
  {
  }

  /** A new body's hash is stored before it is parsed, so it is stored even
      when the body turns out to be malformed; parsing then raises and no
      incident state changes */
  lemma HashStoredBeforeParse(st: MonitorState, cfg: ProviderConfig, settings: TrackerSettings,
                              server: Headers -> Fetch, xml: String -> XmlDoc)
    requires Answer(st, server).Got? && OkResponse(Answer(st, server).resp)
    requires Some(Answer(st, server).resp.body) != st.lastHash
    ensures PollSpec(st, cfg, settings, server, xml).0.lastHash == Some(Answer(st, server).resp.body)
    ensures xml(Answer(st, server).resp.body).Malformed? ==>
      && PollSpec(st, cfg, settings, server, xml).1.Raised?
      && PollSpec(st, cfg, settings, server, xml).0 ==
         RefreshTokens(st, Answer(st, server).resp).(lastHash := Some(Answer(st, server).resp.body))
  {
  }

  /** So a malformed body is never parsed again: the next poll that gets the
      same body completes without touching the incident state */
  lemma MalformedBodySkippedAfter(st: MonitorState, cfg: ProviderConfig, settings: TrackerSettings,
                                  resp: Response, xml: String -> XmlDoc)
    requires OkResponse(resp) && Some(resp.body) != st.lastHash && xml(resp.body).Malformed?
    ensures var server := (h: Headers) => Got(resp);
      var (st1, r1) := PollSpec(st, cfg, settings, server, xml);
      var (st2, r2) := PollSpec(st1, cfg, settings, server, xml);
      && r1.Raised? && r2 == Completed
      && st2.(log := st1.log) == st1
      && st2.seenIds == st.seenIds && st2.seenUpdates == st.seenUpdates
      && st2.firstRun == st.firstRun && st2.count == st.count
  {
  }

  /** An empty feed returns early: the first-run flag survives */
  lemma EmptyFeedKeepsFirstRun(st: MonitorState, cfg: ProviderConfig, settings: TrackerSettings,
                               server: Headers -> Fetch, xml: String -> XmlDoc)
    requires Answer(st, server).Got? && OkResponse(Answer(st, server).resp)
    requires Some(Answer(st, server).resp.body) != st.lastHash
    requires FeedIncidents(xml(Answer(st, server).resp.body), cfg.feedType, cfg.name) == Success([])
    ensures PollSpec(st, cfg, settings, server, xml).1 == Completed
    ensures PollSpec(st, cfg, settings, server, xml).0 ==
      RefreshTokens(st, Answer(st, server).resp).(lastHash := Some(Answer(st, server).resp.body))
  {
  }

  /** A successful response with a new body goes on to ProcessBody */
  lemma PollProcesses(st: MonitorState, cfg: ProviderConfig, settings: TrackerSettings,
                      server: Headers -> Fetch, xml: String -> XmlDoc)
    requires Answer(st, server).Got? && OkResponse(Answer(st, server).resp)
    requires Some(Answer(st, server).resp.body) != st.lastHash
    ensures PollSpec(st, cfg, settings, server, xml) ==
      ProcessBody(RefreshTokens(st, Answer(st, server).resp), cfg, settings,
                  Answer(st, server).resp.body, xml(Answer(st, server).resp.body))
  {
  }

  /** A non-empty parse on the first run goes through FirstRun */
  lemma ProcessFirstRun(st: MonitorState, cfg: ProviderConfig, settings: TrackerSettings,
                        body: String, doc: XmlDoc, incs: seq<Incident>)
    requires st.firstRun && incs != []
    requires FeedIncidents(doc, cfg.feedType, cfg.name) == Success(incs)
    ensures ProcessBody(st, cfg, settings, body, doc) ==
      (FirstRun(st.(lastHash := Some(body)), settings, incs), Completed)
  {
  }

  /** A non-empty parse on a later run goes through the diff */
  lemma ProcessLaterRun(st: MonitorState, cfg: ProviderConfig, settings: TrackerSettings,
                        body: String, doc: XmlDoc, incs: seq<Incident>)
    requires !st.firstRun
    requires FeedIncidents(doc, cfg.feedType, cfg.name) == Success(incs)
    ensures ProcessBody(st, cfg, settings, body, doc) == (DiffAll(st.(lastHash := Some(body)), incs), Completed)
  {
  }

  /** The first non-empty feed clears the flag, seeds every incident, counts
      all of them, shows the historical slice and reports nothing as new or updated */
  lemma FirstRunSeedsAll(st: MonitorState, cfg: ProviderConfig, settings: TrackerSettings,
                         server: Headers -> Fetch, xml: String -> XmlDoc, incs: seq<Incident>)
    requires st.firstRun
    requires Answer(st, server).Got? && OkResponse(Answer(st, server).resp)
    requires Some(Answer(st, server).resp.body) != st.lastHash
    requires FeedIncidents(xml(Answer(st, server).resp.body), cfg.feedType, cfg.name) == Success(incs)
    requires incs != []
    ensures var st' := PollSpec(st, cfg, settings, server, xml).0;
      && PollSpec(st, cfg, settings, server, xml).1 == Completed
      && !st'.firstRun
      && st'.seenIds == st.seenIds + IdsOf(incs)
      && st'.seenUpdates.Keys == st.seenUpdates.Keys + IdsOf(incs)
      && st'.count == st.count + |incs|
      && (forall i :: 0 <= i < |incs| && LastWithId(incs, i) ==> st'.seenUpdates[incs[i].id] == Fingerprint(incs[i]))
  {
    var resp := Answer(st, server).resp;
    PollProcesses(st, cfg, settings, server, xml);
    ProcessFirstRun(RefreshTokens(st, resp), cfg, settings, resp.body, xml(resp.body), incs);
    var st1 := RefreshTokens(st, resp).(lastHash := Some(resp.body));
    var st2 := st1.(firstRun := false);
    var st3 := if settings.showHistorical
      then st2.(log := st2.log + HistoricalEvents(HistoricalSlice(incs, settings.maxHistorical)))
      else st2;
    SeedAllIds(st3, incs);
    SeedAllLatest(st3, incs);
  }

  /** ... and logs only the historical slice, when enabled, and the watching line */
  lemma FirstRunLog(st: MonitorState, cfg: ProviderConfig, settings: TrackerSettings,
                    server: Headers -> Fetch, xml: String -> XmlDoc, incs: seq<Incident>)
    requires st.firstRun
    requires Answer(st, server).Got? && OkResponse(Answer(st, server).resp)
    requires Some(Answer(st, server).resp.body) != st.lastHash
    requires FeedIncidents(xml(Answer(st, server).resp.body), cfg.feedType, cfg.name) == Success(incs)
    requires incs != []
    ensures PollSpec(st, cfg, settings, server, xml).0.log == st.log
      + (if settings.showHistorical then HistoricalEvents(HistoricalSlice(incs, settings.maxHistorical)) else [])
      + [Watching]
  {
    var resp := Answer(st, server).resp;
    PollProcesses(st, cfg, settings, server, xml);
    ProcessFirstRun(RefreshTokens(st, resp), cfg, settings, resp.body, xml(resp.body), incs);
    FirstRunLogIs(RefreshTokens(st, resp).(lastHash := Some(resp.body)), settings, incs);
  }

  lemma FirstRunLogIs(st: MonitorState, settings: TrackerSettings, incs: seq<Incident>)
    ensures FirstRun(st, settings, incs).log == st.log
      + (if settings.showHistorical then HistoricalEvents(HistoricalSlice(incs, settings.maxHistorical)) else [])
      + [Watching]
  {
  }

  /** A later non-empty feed goes through the diff: every id is remembered
      with its latest fingerprint, and the counter grows by the number of
      reports, each of them a new or an updated incident */
  lemma LaterRunDiffs(st: MonitorState, cfg: ProviderConfig, settings: TrackerSettings,
                      server: Headers -> Fetch, xml: String -> XmlDoc, incs: seq<Incident>)
    requires !st.firstRun
    requires Answer(st, server).Got? && OkResponse(Answer(st, server).resp)
    requires Some(Answer(st, server).resp.body) != st.lastHash
    requires FeedIncidents(xml(Answer(st, server).resp.body), cfg.feedType, cfg.name) == Success(incs)
    ensures var st' := PollSpec(st, cfg, settings, server, xml).0;
      && PollSpec(st, cfg, settings, server, xml).1 == Completed
      && !st'.firstRun
      && st'.seenIds == st.seenIds + IdsOf(incs)
      && (forall i :: 0 <= i < |incs| && LastWithId(incs, i) ==>
           incs[i].id in st'.seenUpdates && st'.seenUpdates[incs[i].id] == Fingerprint(incs[i]))
      && st'.count - st.count == |st'.log| - |st.log|
      && |st.log| <= |st'.log| && st'.log[..|st.log|] == st.log
      && (forall k :: |st.log| <= k < |st'.log| ==> st'.log[k].NewIncident? || st'.log[k].UpdatedIncident?)
  {
    var resp := Answer(st, server).resp;
    PollProcesses(st, cfg, settings, server, xml);
    ProcessLaterRun(RefreshTokens(st, resp), cfg, settings, resp.body, xml(resp.body), incs);
    DiffAllFacts(RefreshTokens(st, resp).(lastHash := Some(resp.body)), incs);
  }

  /** Over any poll: the seen ids never shrink, they stay the keys of the
      fingerprint map, the counter never decreases and the log only grows */
  lemma PollPreservesValid(st: MonitorState, cfg: ProviderConfig, settings: TrackerSettings,
                           server: Headers -> Fetch, xml: String -> XmlDoc)
    requires Valid(st)
    ensures Valid(PollSpec(st, cfg, settings, server, xml).0)
    ensures st.seenIds <= PollSpec(st, cfg, settings, server, xml).0.seenIds
    ensures st.count <= PollSpec(st, cfg, settings, server, xml).0.count
    ensures st.log <= PollSpec(st, cfg, settings, server, xml).0.log
    ensures PollSpec(st, cfg, settings, server, xml).0.errors == st.errors
  {
    match Answer(st, server)
    case NetworkFailure =>
    case Got(resp) =>
      if OkResponse(resp) && Some(resp.body) != st.lastHash {
        PollProcesses(st, cfg, settings, server, xml);
        ProcessPreservesValid(RefreshTokens(st, resp), cfg, settings, resp.body, xml(resp.body));
      }
  }

  /** The same facts for the processing of a new body */
  lemma ProcessPreservesValid(st: MonitorState, cfg: ProviderConfig, settings: TrackerSettings,
                              body: String, doc: XmlDoc)
    requires Valid(st)
    ensures Valid(ProcessBody(st, cfg, settings, body, doc).0)
    ensures st.seenIds <= ProcessBody(st, cfg, settings, body, doc).0.seenIds
    ensures st.count <= ProcessBody(st, cfg, settings, body, doc).0.count
    ensures st.log <= ProcessBody(st, cfg, settings, body, doc).0.log
    ensures ProcessBody(st, cfg, settings, body, doc).0.errors == st.errors
  {
    var st1 := st.(lastHash := Some(body));
    match FeedIncidents(doc, cfg.feedType, cfg.name)
    case Failure(_) =>
    case Success(incs) =>
      if incs != [] {
        if st.firstRun {
          ProcessFirstRun(st, cfg, settings, body, doc, incs);
          var st2 := st1.(firstRun := false);
          var st3 := if settings.showHistorical
            then st2.(log := st2.log + HistoricalEvents(HistoricalSlice(incs, settings.maxHistorical)))
            else st2;
          SeedAllFacts(st3, incs);
        } else {
          ProcessLaterRun(st, cfg, settings, body, doc, incs);
          DiffAllFacts(st1, incs);
        }
      }
  }

  // ---------------------------------------------------------------------
  // The start loop
  // ---------------------------------------------------------------------

  /** A turn whose poll completes resets the error counter and sleeps the poll interval */
  lemma StepAfterSuccess(st: MonitorState, cfg: ProviderConfig, settings: TrackerSettings,
                         server: Headers -> Fetch, xml: String -> XmlDoc, u: real)
    requires PollSpec(st, cfg, settings, server, xml).1 == Completed
    ensures StepSpec(st, cfg, settings, server, xml, u).0 == PollSpec(st, cfg, settings, server, xml).0.(errors := 0)
    ensures StepSpec(st, cfg, settings, server, xml, u).1 == cfg.pollInterval as real
  {
  }

  /** A turn whose poll raises counts the error first, then sleeps the backoff
      for the new count, which never exceeds five minutes */
  lemma StepAfterError(st: MonitorState, cfg: ProviderConfig, settings: TrackerSettings,
                       server: Headers -> Fetch, xml: String -> XmlDoc, u: real)
    requires PollSpec(st, cfg, settings, server, xml).1.Raised?
    ensures StepSpec(st, cfg, settings, server, xml, u).0.errors == st.errors + 1
    ensures StepSpec(st, cfg, settings, server, xml, u).1 ==
      BackoffDelay(st.errors + 1, settings.maxRetries, settings.baseBackoff, u)
    ensures StepSpec(st, cfg, settings, server, xml, u).1 <= MaxDelay
  {
    PollKeepsErrors(st, cfg, settings, server, xml);
  }

  /** A poll never touches the error counter: only the surrounding loop does */
  lemma PollKeepsErrors(st: MonitorState, cfg: ProviderConfig, settings: TrackerSettings,
                        server: Headers -> Fetch, xml: String -> XmlDoc)
    ensures PollSpec(st, cfg, settings, server, xml).0.errors == st.errors
  {
    match Answer(st, server)
    case NetworkFailure =>
    case Got(resp) =>
      if OkResponse(resp) && Some(resp.body) != st.lastHash {
        PollProcesses(st, cfg, settings, server, xml);
        ProcessKeepsErrors(RefreshTokens(st, resp), cfg, settings, resp.body, xml(resp.body));
      }
  }

  /** Processing a body never touches the error counter */
  lemma ProcessKeepsErrors(st: MonitorState, cfg: ProviderConfig, settings: TrackerSettings,
                           body: String, doc: XmlDoc)
    ensures ProcessBody(st, cfg, settings, body, doc).0.errors == st.errors
  {
  }

  /** Every turn keeps the seen-id invariant and never forgets an id */
  lemma StepPreservesValid(st: MonitorState, cfg: ProviderConfig, settings: TrackerSettings,
                           server: Headers -> Fetch, xml: String -> XmlDoc, u: real)
    requires Valid(st)
    ensures Valid(StepSpec(st, cfg, settings, server, xml, u).0)
    ensures st.seenIds <= StepSpec(st, cfg, settings, server, xml, u).0.seenIds
  {
    PollPreservesValid(st, cfg, settings, server, xml);
  }

  /** The initial state satisfies the invariant */
  lemma InitialValid()
    ensures Valid(Initial()) && Initial().firstRun && Initial().count == 0
  {
  }

  // ---------------------------------------------------------------------
  // A whole scenario
  // ---------------------------------------------------------------------

  /** A server that answers `resp` whatever headers it is sent */
  ghost predicate AlwaysAnswers(server: Headers -> Fetch, resp: Response) {
    forall h: Headers :: server(h) == Got(resp)
  }

  /** A fresh monitor sees a feed of two incidents, then a feed with one more
      in front: both polls complete, the first reports nothing as new or
      updated and the second reports exactly the added incident */
  lemma SecondFeedReportsOnlyTheNewIncident(cfg: ProviderConfig, settings: TrackerSettings,
                                            server1: Headers -> Fetch, server2: Headers -> Fetch,
                                            resp1: Response, resp2: Response, xml: String -> XmlDoc,
                                            a: Incident, b: Incident, c: Incident,
                                            p1: (MonitorState, PollResult), p2: (MonitorState, PollResult))
    requires AlwaysAnswers(server1, resp1) && AlwaysAnswers(server2, resp2)
    requires OkResponse(resp1) && OkResponse(resp2) && resp1.body != resp2.body
    requires FeedIncidents(xml(resp1.body), cfg.feedType, cfg.name) == Success([a, b])
    requires FeedIncidents(xml(resp2.body), cfg.feedType, cfg.name) == Success([c, a, b])
    requires a.id != b.id && c.id != a.id && c.id != b.id
    requires p1 == PollSpec(Initial(), cfg, settings, server1, xml)
    requires p2 == PollSpec(p1.0, cfg, settings, server2, xml)
    ensures p1.1 == Completed && p2.1 == Completed
    ensures NoReports(p1.0.log)
    ensures p2.0.log == p1.0.log + [NewIncident(c)]
    ensures p2.0.seenIds == {a.id, b.id, c.id}
    ensures p2.0.count == 3
  {
    FirstPollOfTwo(cfg, settings, server1, resp1, xml, a, b, p1);
    SeenAfterFirstPoll(p1.0, resp1, resp2, a, b, c);
    assert Answer(p1.0, server2) == Got(resp2);
    LaterPollReportsOnlyTheNewOne(p1.0, cfg, settings, server2, resp2, xml, a, b, c, p2);
  }

  /** A later poll whose feed is [c, a, b], with a and b stored unchanged and
      c unseen, reports c alone */
  lemma LaterPollReportsOnlyTheNewOne(s1: MonitorState, cfg: ProviderConfig, settings: TrackerSettings,
                                      server: Headers -> Fetch, resp2: Response, xml: String -> XmlDoc,
                                      a: Incident, b: Incident, c: Incident, p2: (MonitorState, PollResult))
    requires Answer(s1, server) == Got(resp2)
    requires !s1.firstRun && OkResponse(resp2) && Some(resp2.body) != s1.lastHash
    requires FeedIncidents(xml(resp2.body), cfg.feedType, cfg.name) == Success([c, a, b])
    requires a.id in s1.seenIds && a.id in s1.seenUpdates && s1.seenUpdates[a.id] == Fingerprint(a)
    requires b.id in s1.seenIds && b.id in s1.seenUpdates && s1.seenUpdates[b.id] == Fingerprint(b)
    requires c.id !in s1.seenIds && c.id != a.id && c.id != b.id
    requires p2 == PollSpec(s1, cfg, settings, server, xml)
    ensures p2.1 == Completed
    ensures p2.0.log == s1.log + [NewIncident(c)]
    ensures p2.0.seenIds == s1.seenIds + {c.id}
    ensures p2.0.count == s1.count + 1
  {
    PollProcesses(s1, cfg, settings, server, xml);
    ProcessLaterRun(RefreshTokens(s1, resp2), cfg, settings, resp2.body, xml(resp2.body), [c, a, b]);
    DiffAddsOnlyTheNewOne(RefreshTokens(s1, resp2).(lastHash := Some(resp2.body)), a, b, c);
  }

  /** The first poll of a fresh monitor on a two-incident feed seeds both
      and reports none of them as new or updated */
  lemma FirstPollOfTwo(cfg: ProviderConfig, settings: TrackerSettings, server: Headers -> Fetch,
                       resp1: Response, xml: String -> XmlDoc, a: Incident, b: Incident,
                       p1: (MonitorState, PollResult))
    requires AlwaysAnswers(server, resp1) && OkResponse(resp1)
    requires FeedIncidents(xml(resp1.body), cfg.feedType, cfg.name) == Success([a, b])
    requires a.id != b.id
    requires p1 == PollSpec(Initial(), cfg, settings, server, xml)
    ensures p1.1 == Completed && !p1.0.firstRun && p1.0.lastHash == Some(resp1.body)
    ensures p1.0.seenIds == {a.id, b.id} && p1.0.count == 2
    ensures a.id in p1.0.seenUpdates && p1.0.seenUpdates[a.id] == Fingerprint(a)
    ensures b.id in p1.0.seenUpdates && p1.0.seenUpdates[b.id] == Fingerprint(b)
    ensures NoReports(p1.0.log)
  {
    assert Answer(Initial(), server) == Got(resp1);
    FirstRunSeedsAll(Initial(), cfg, settings, server, xml, [a, b]);
    FirstRunQuiet(Initial(), cfg, settings, server, xml, [a, b]);
    HashStoredBeforeParse(Initial(), cfg, settings, server, xml);
    TwoIncidents(a, b);
  }

  /** What the second poll needs to know of the state the first one left */
  lemma SeenAfterFirstPoll(s1: MonitorState, resp1: Response, resp2: Response, a: Incident, b: Incident, c: Incident)
    requires s1.lastHash == Some(resp1.body) && resp1.body != resp2.body
    requires s1.seenIds == {a.id, b.id} && c.id != a.id && c.id != b.id
    ensures Some(resp2.body) != s1.lastHash
    ensures a.id in s1.seenIds && b.id in s1.seenIds && c.id !in s1.seenIds
    ensures s1.seenIds + {c.id} == {a.id, b.id, c.id}
  {
  }

  lemma TwoIncidents(a: Incident, b: Incident)
    requires a.id != b.id
    ensures IdsOf([a, b]) == {a.id, b.id}
    ensures LastWithId([a, b], 0) && LastWithId([a, b], 1)
  {
    assert [a, b][0] == a && [a, b][1] == b;
    forall x | x in IdsOf([a, b]) ensures x in {a.id, b.id} {
      var i :| 0 <= i < 2 && [a, b][i].id == x;
    }
  }

  /** The first run only adds historical lines and the watching line to the
      log: nothing it writes reports a new or an updated incident */
  lemma FirstRunQuiet(st: MonitorState, cfg: ProviderConfig, settings: TrackerSettings,
                      server: Headers -> Fetch, xml: String -> XmlDoc, incs: seq<Incident>)
    requires st.firstRun && NoReports(st.log)
    requires Answer(st, server).Got? && OkResponse(Answer(st, server).resp)
    requires Some(Answer(st, server).resp.body) != st.lastHash
    requires FeedIncidents(xml(Answer(st, server).resp.body), cfg.feedType, cfg.name) == Success(incs)
    requires incs != []
    ensures NoReports(PollSpec(st, cfg, settings, server, xml).0.log)
  {
    FirstRunLog(st, cfg, settings, server, xml, incs);
    var hist := HistoricalSlice(incs, settings.maxHistorical);
    var added := if settings.showHistorical then HistoricalEvents(hist) else [];
    assert NoReports(added) by {
      if settings.showHistorical {
        ShownOnlyHistorical(hist);
      }
    }
    assert NoReports([Watching]);
    NoReportsConcat(st.log, added);
    NoReportsConcat(st.log + added, [Watching]);
  }

  /** No line of the log reports a new or an updated incident */
  predicate NoReports(log: seq<Event>) {
    forall k :: 0 <= k < |log| ==> !log[k].NewIncident? && !log[k].UpdatedIncident?
  }

  lemma NoReportsConcat(x: seq<Event>, y: seq<Event>)
    requires NoReports(x) && NoReports(y)
    ensures NoReports(x + y)
  {
    forall k | 0 <= k < |x + y| ensures !(x + y)[k].NewIncident? && !(x + y)[k].UpdatedIncident? {
      if k >= |x| {
        assert (x + y)[k] == y[k - |x|];
      }
    }
  }

  /** Diffing [c, a, b] where a and b are stored unchanged and c is unseen
      reports c alone */
  lemma DiffAddsOnlyTheNewOne(s: MonitorState, a: Incident, b: Incident, c: Incident)
    requires a.id in s.seenIds && a.id in s.seenUpdates && s.seenUpdates[a.id] == Fingerprint(a)
    requires b.id in s.seenIds && b.id in s.seenUpdates && s.seenUpdates[b.id] == Fingerprint(b)
    requires c.id !in s.seenIds && c.id != a.id && c.id != b.id
    ensures DiffAll(s, [c, a, b]).log == s.log + [NewIncident(c)]
    ensures DiffAll(s, [c, a, b]).seenIds == s.seenIds + {c.id}
    ensures DiffAll(s, [c, a, b]).count == s.count + 1
  {
    DiffNew(s, c);
    var d1 := DiffAll(s, [c]);
    assert [c, a][..1] == [c] && [c, a, b][..2] == [c, a];
    assert DiffAll(s, [c, a]) == DiffOne(d1, a);
    assert DiffOne(d1, a) == d1;
    assert DiffAll(s, [c, a, b]) == DiffOne(d1, b);
    assert DiffOne(d1, b) == d1;
  }

  /** The historical lines are not new-incident or update reports */
  lemma {:induction false} ShownOnlyHistorical(hist: seq<Incident>)
    ensures NoReports(HistoricalEvents(hist))
  {
    forall k | 0 <= k < |Shown(hist)| ensures Shown(hist)[k].Historical? {
      ShownAt(hist, k);
    }
  }

  lemma {:induction false} ShownAt(hist: seq<Incident>, k: nat)
    requires k < |hist|
    ensures Shown(hist)[k] == Historical(hist[k])
    decreases |hist|
  {
    if k < |hist| - 1 {
      ShownAt(hist[..|hist| - 1], k);
    }
  }

  // ---------------------------------------------------------------------
  // The counter on the package
  // ---------------------------------------------------------------------

  /** The seeding loop as written: the counter is `_tracker.incident_count`, an
      attribute of the `tracker` package (None when it does not exist), and
      the first `+= 1` on a missing attribute raises AttributeError after the
      id and fingerprint of that incident were stored */
  function SeedAsWritten(st: MonitorState, incs: seq<Incident>, counter: Option<int>)
    : (r: (MonitorState, Option<int>, PollResult))
    ensures counter.None? && incs != [] ==> r.2 == Raised(CounterMissing)
    decreases |incs|
  {
    if incs == [] then (st, counter, Completed)
    else
      var inc := incs[0];
      var st1 := st.(seenIds := st.seenIds + {inc.id}, seenUpdates := st.seenUpdates[inc.id := Fingerprint(inc)]);
      match counter
      case None => (st1, None, Raised(CounterMissing))
      case Some(n) => SeedAsWritten(st1, incs[1..], Some(n + 1))
  }

  /** With the package as shipped (no incident_count), a first feed of two
      incidents seeds only the first one: the second stays unseen, so a later
      diff that meets it reports it as new */
  lemma SeedAsWrittenStopsAtFirst(st: MonitorState, a: Incident, b: Incident, rest: seq<Incident>)
    requires b.id != a.id && b.id !in st.seenIds
    ensures SeedAsWritten(st, [a, b] + rest, None).2 == Raised(CounterMissing)
    ensures SeedAsWritten(st, [a, b] + rest, None).0.seenIds == st.seenIds + {a.id}
    ensures b.id !in SeedAsWritten(st, [a, b] + rest, None).0.seenIds
    ensures DiffAll(SeedAsWritten(st, [a, b] + rest, None).0, [b]).log ==
      SeedAsWritten(st, [a, b] + rest, None).0.log + [NewIncident(b)]
  {
    var st1 := SeedAsWritten(st, [a, b] + rest, None).0;
    assert b.id !in st1.seenIds;
    DiffNew(st1, b);
  }

  /** The diff loop as written: a new or updated incident is reported and
      stored, then the `+= 1` on the missing package counter raises, so the
      rest of the feed is not looked at in this poll */
  function DiffAsWritten(st: MonitorState, incs: seq<Incident>, counter: Option<int>)
    : (r: (MonitorState, Option<int>, PollResult))
    ensures counter.None? && incs != [] && incs[0].id !in st.seenIds ==>
      r.2 == Raised(CounterMissing) && r.0.log == st.log + [NewIncident(incs[0])]
    decreases |incs|
  {
    if incs == [] then (st, counter, Completed)
    else
      var inc := incs[0];
      var h := Fingerprint(inc);
      if inc.id !in st.seenIds then
        var st1 := st.(log := st.log + [NewIncident(inc)], seenIds := st.seenIds + {inc.id},
                       seenUpdates := st.seenUpdates[inc.id := h]);
        match counter
        case None => (st1, None, Raised(CounterMissing))
        case Some(n) => DiffAsWritten(st1, incs[1..], Some(n + 1))
      else if MapGet(st.seenUpdates, inc.id) != Some(h) then
        var st1 := st.(log := st.log + [UpdatedIncident(inc)], seenUpdates := st.seenUpdates[inc.id := h]);
        match counter
        case None => (st1, None, Raised(CounterMissing))
        case Some(n) => DiffAsWritten(st1, incs[1..], Some(n + 1))
      else DiffAsWritten(st, incs[1..], counter)
  }

  /** With the package as shipped, a later feed with two new incidents
      reports only the first: the second stays unseen and unreported, where
      the diff as intended reports both */
  lemma DiffAsWrittenStopsAtFirst(st: MonitorState, a: Incident, b: Incident, rest: seq<Incident>)
    requires a.id !in st.seenIds && b.id !in st.seenIds && b.id != a.id
    ensures DiffAsWritten(st, [a, b] + rest, None).2 == Raised(CounterMissing)
    ensures DiffAsWritten(st, [a, b] + rest, None).0.log == st.log + [NewIncident(a)]
    ensures b.id !in DiffAsWritten(st, [a, b] + rest, None).0.seenIds
    ensures DiffAll(st, [a, b]).log == st.log + [NewIncident(a), NewIncident(b)]
  {
    var st1 := DiffAll(st, [a]);
    DiffNew(st, a);
    assert [a, b][..1] == [a];
    DiffNew(st1, b);
    assert DiffAll(st1, [b]) == DiffOne(st1, b);
    assert [a, b][..0] == [];
  }
}
