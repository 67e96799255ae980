/**
 * The recorder of src/recorder.js: the scope decision for one captured
 * response, the entry built from it, the header allow-list, and the
 * APIRecorder object that numbers and accumulates entries and hands back the
 * session record on stop.
 *
 * The browser is not modelled: a captured response arrives as a
 * `ResponseEvent` holding everything handleResponse reads from it, with the
 * body text already read, and the browser itself is the flag `browserOpen`.
 */
module Recorder {
  import opened Wrappers
  import opened Strings
  import opened Matcher
  import opened Body

  const DefaultIncludePatterns: seq<string> := ["/api/"]
  const DefaultExcludePatterns: seq<string> :=
    [".css", ".js", ".woff", ".woff2", ".ttf", ".ico", ".png", ".jpg", ".jpeg", ".gif", ".svg"]
  const DefaultBodySizeLimit := 10000

  /** The headers kept in an entry, by lower-case name. */
  const KeepHeaders: seq<string> :=
    ["content-type", "accept", "authorization", "cookie", "cache-control", "content-length"]

  datatype Config = Config(includePatterns: seq<string>, excludePatterns: seq<string>, bodySizeLimit: int, headless: bool)

  const DefaultConfig := Config(DefaultIncludePatterns, DefaultExcludePatterns, DefaultBodySizeLimit, false)

  /** The options the constructor accepts; None is a key that is absent. */
  datatype RecorderOptions = RecorderOptions(
    scenarioName: Option<string>,
    includePatterns: Option<seq<string>>,
    excludePatterns: Option<seq<string>>,
    bodySizeLimit: Option<int>,
    headless: Option<bool>)

  /** `{ ...DEFAULT_CONFIG, ...options }`. */
  function MergeConfig(options: RecorderOptions): Config {
    Config(
      options.includePatterns.GetOr(DefaultIncludePatterns),
      options.excludePatterns.GetOr(DefaultExcludePatterns),
      options.bodySizeLimit.GetOr(DefaultBodySizeLimit),
      options.headless.GetOr(false))
  }

  /**
   * One response as the capture source delivers it. `path` is the pathname
   * and query of `url`; `timing` is `Math.round(responseEnd - requestStart)`,
   * None when there is no timing; `timestamp` is the capture time and
   * `pageUrl` the page's URL at that time.
   */
  datatype ResponseEvent = ResponseEvent(
    url: string,
    path: string,
    httpMethod: string,
    requestHeaders: map<string, string>,
    postData: Option<string>,
    status: int,
    statusText: string,
    responseHeaders: map<string, string>,
    responseText: Option<string>,
    timing: Option<int>,
    pageUrl: string,
    timestamp: string)

  datatype RequestRecord = RequestRecord(httpMethod: string, url: string, headers: map<string, string>, body: Json)

  datatype ResponseRecord = ResponseRecord(
    status: int,
    statusText: string,
    headers: map<string, string>,
    body: Json,
    bodyTruncated: bool,
    bodyOriginalSize: Option<int>)

  datatype Entry = Entry(
    seqNo: nat,
    timestamp: string,
    pageUrl: string,
    durationMs: Option<int>,
    request: RequestRecord,
    response: ResponseRecord)

  datatype RecordedConfig = RecordedConfig(includePatterns: seq<string>, excludePatterns: seq<string>, bodySizeLimit: int)

  /** What stop returns. `recordedAt` and `baseUrl` are None before start. */
  datatype SessionRecord = SessionRecord(
    scenario: string,
    recordedAt: Option<string>,
    baseUrl: Option<string>,
    config: RecordedConfig,
    entries: seq<Entry>)

  /** A response is recorded when its path passes the includes, its URL escapes the excludes and starts with `http`. */
  predicate InScope(config: Config, ev: ResponseEvent) {
    && MatchesIncludePatterns(ev.path, config.includePatterns)
    && !MatchesExcludePatterns(ev.url, config.excludePatterns)
    && StartsWith(ev.url, "http")
  }

  /** With the default patterns, a JSON resource under `/api/` is dropped: `.js` occurs in `.json`. */
  lemma DefaultExcludesDropJsonUrls(origin: string, stem: string)
    ensures MatchesIncludePatterns("/api/" + stem + ".json", DefaultIncludePatterns)
    ensures MatchesExcludePatterns(origin + "/api/" + stem + ".json", DefaultExcludePatterns)
  {
    var path := "/api/" + stem + ".json";
    assert "/api/" in DefaultIncludePatterns;
    assert IncludeMatches(path, "/api/") by {
      assert path[..5] == "/api/";
      assert StartsWith(path, "/api/");
    }
    var front := origin + "/api/" + stem;
    var url := front + ".json";
    assert ".js" in DefaultExcludePatterns;
    assert ExcludeMatches(url, ".js") by {
      assert !StartsWith(".js", "*.") by {
        assert ".js"[0] != '*';
      }
      assert url[|front|..|front| + 3] == ".js";
      assert OccursAt(url, ".js", |front|);
      ContainsIffOccurs(url, ".js");
    }
  }

  /** With include `/api/` and exclude `.png`, a request for `/static/logo.png` is dropped. */
  lemma ScenarioDropsAsset(logo: ResponseEvent, limit: int)
    requires logo.url == "https://example.com/static/logo.png" && logo.path == "/static/logo.png"
    ensures !InScope(Config(["/api/"], [".png"], limit, false), logo)
  {
    var config := Config(["/api/"], [".png"], limit, false);
    assert ExcludeMatches(logo.url, ".png") by {
      assert !StartsWith(".png", "*.") by {
        assert ".png"[0] != '*';
      }
      assert logo.url[31..35] == ".png";
      assert OccursAt(logo.url, ".png", 31);
      ContainsIffOccurs(logo.url, ".png");
    }
    assert ".png" in config.excludePatterns;
  }

  /** `duration > 0 ? duration : null`, where a missing timing counts as 0. */
  function DurationMs(timing: Option<int>): (r: Option<int>)
    ensures r.Some? ==> r.value > 0 && timing == r
    ensures r.None? <==> timing.None? || timing.value <= 0
  {
    match timing
    case Some(d) => if d > 0 then Some(d) else None
    case None => None
  }

  function ContentType(headers: map<string, string>): string {
    if "content-type" in headers then headers["content-type"] else ""
  }

  /** The entry for an accepted response, given its number and its filtered headers (src/recorder.js:204-240). */
  function MakeEntry(n: nat, ev: ResponseEvent, requestHeaders: map<string, string>,
                     responseHeaders: map<string, string>, limit: int, json: JsonCodec): (e: Entry)
    ensures e.seqNo == n && e.timestamp == ev.timestamp && e.pageUrl == ev.pageUrl
    ensures e.request.url == ev.path && e.request.headers == requestHeaders
    ensures e.response.headers == responseHeaders
    ensures e.durationMs == DurationMs(ev.timing)
    ensures e.request.httpMethod == ev.httpMethod && e.request.body == ParseRequestBody(ev.postData, json)
    ensures e.response.status == ev.status && e.response.statusText == ev.statusText
    ensures e.response.bodyOriginalSize.Some? ==> e.response.bodyTruncated && e.response.bodyOriginalSize.value > limit
    ensures limit >= 0 ==> (e.response.bodyOriginalSize.Some? <==> e.response.bodyTruncated)
    ensures var body := ParseResponseBody(ContentType(ev.responseHeaders), ev.responseText, json);
            && (e.response.bodyTruncated <==> !body.JNull? && |Serialized(body, json)| > limit)
            && (!e.response.bodyTruncated ==> e.response.body == body)
            && (limit >= 0 && e.response.bodyTruncated ==> e.response.bodyOriginalSize == Some(|Serialized(body, json)|))
    ensures var t := TruncateBody(ParseResponseBody(ContentType(ev.responseHeaders), ev.responseText, json), limit, json);
            && e.response.body == t.body && e.response.bodyTruncated == t.truncated
            && e.response.bodyOriginalSize == (if t.originalSize == Some(0) then None else t.originalSize)
  {
    var t := TruncateBody(ParseResponseBody(ContentType(ev.responseHeaders), ev.responseText, json), limit, json);
    Entry(
      n, ev.timestamp, ev.pageUrl, DurationMs(ev.timing),
      RequestRecord(ev.httpMethod, ev.path, requestHeaders, ParseRequestBody(ev.postData, json)),
      ResponseRecord(
        ev.status, ev.statusText, responseHeaders, t.body, t.truncated,
        // `truncated && originalSize`: a size of 0 is falsy and is dropped
        if t.truncated && t.originalSize.Some? && t.originalSize.value != 0 then t.originalSize else None))
  }

  /**
   * With a negative body limit, an empty non-JSON response body is truncated
   * to `...`, and its original size 0 is falsy, so the entry is marked
   * truncated but records no original size.
   */
  lemma NegativeLimitDropsZeroSize(n: nat, ev: ResponseEvent, requestHeaders: map<string, string>,
                                   responseHeaders: map<string, string>, limit: int, json: JsonCodec)
    requires limit < 0 && ev.responseText == Some("") && json.parse("").None?
    requires !Contains(ContentType(ev.responseHeaders), "application/json")
    ensures var e := MakeEntry(n, ev, requestHeaders, responseHeaders, limit, json);
            e.response.bodyTruncated && e.response.bodyOriginalSize.None? && e.response.body == JString(Ellipsis)
  {
    assert ParseResponseBody(ContentType(ev.responseHeaders), ev.responseText, json) == JString("");
    assert SliceTo("", limit) == "";
  }

  /** A header survives when its lower-case name is on the allow-list. */
  predicate Kept(name: string) {
    ToLower(name) in KeepHeaders
  }

  /** The allow-listed part of a header map, names in their original case, values unchanged. */
  function AllowedHeaders(headers: map<string, string>): (r: map<string, string>)
    ensures r.Keys <= headers.Keys
    ensures forall name :: name in r ==> Kept(name) && r[name] == headers[name]
    ensures forall name :: name in headers && Kept(name) ==> name in r
  {
    map name | name in headers && Kept(name) :: headers[name]
  }

  /** Redacting `X-Custom: 1, Content-Type: application/json` leaves only the content type. */
  lemma AllowedHeadersExample()
    ensures AllowedHeaders(map["X-Custom" := "1", "Content-Type" := "application/json"])
            == map["Content-Type" := "application/json"]
  {
    var h := map["X-Custom" := "1", "Content-Type" := "application/json"];
    assert ToLower("Content-Type") == "content-type";
    assert Kept("Content-Type");
    assert ToLower("X-Custom") == "x-custom";
    assert !Kept("X-Custom");
    assert AllowedHeaders(h).Keys == {"Content-Type"};
  }

  /** The entry handleResponse builds for the `n`-th accepted response. */
  function BuildEntry(config: Config, json: JsonCodec, n: nat, ev: ResponseEvent): Entry {
    MakeEntry(n, ev, AllowedHeaders(ev.requestHeaders), AllowedHeaders(ev.responseHeaders), config.bodySizeLimit, json)
  }

  /** The entries recorded from `events` handled one after the other. */
  ghost function Capture(config: Config, json: JsonCodec, events: seq<ResponseEvent>): seq<Entry>
    decreases |events|
  {
    if events == [] then []
    else
      var prior := Capture(config, json, events[..|events| - 1]);
      var ev := events[|events| - 1];
      if InScope(config, ev) then prior + [BuildEntry(config, json, |prior| + 1, ev)] else prior
  }

  /** The in-scope responses among `events`, in the order they were handled. */
  ghost function InScopeEvents(config: Config, events: seq<ResponseEvent>): (r: seq<ResponseEvent>)
    ensures |r| <= |events|
    ensures forall ev :: ev in r <==> ev in events && InScope(config, ev)
    decreases |events|
  {
    if events == [] then []
    else
      var front := events[..|events| - 1];
      var ev := events[|events| - 1];
      assert events == front + [ev];
      InScopeEvents(config, front) + (if InScope(config, ev) then [ev] else [])
  }

  /**
   * Handled one at a time, responses give one entry per in-scope response:
   * entry `i` is built, with number `i + 1`, from the `i`-th in-scope
   * response in the order they were handled.
   */
  lemma {:induction false} CaptureNumbering(config: Config, json: JsonCodec, events: seq<ResponseEvent>)
    ensures |Capture(config, json, events)| == |InScopeEvents(config, events)|
    ensures forall i :: 0 <= i < |Capture(config, json, events)| ==>
              Capture(config, json, events)[i] == BuildEntry(config, json, i + 1, InScopeEvents(config, events)[i])
    ensures forall i :: 0 <= i < |Capture(config, json, events)| ==> Capture(config, json, events)[i].seqNo == i + 1
    decreases |events|
  {
    if events != [] {
      var front := events[..|events| - 1];
      var ev := events[|events| - 1];
      CaptureNumbering(config, json, front);
      var prior := Capture(config, json, front);
      var earlier := InScopeEvents(config, front);
      assert Capture(config, json, events)
             == if InScope(config, ev) then prior + [BuildEntry(config, json, |prior| + 1, ev)] else prior;
      assert InScopeEvents(config, events) == earlier + (if InScope(config, ev) then [ev] else []);
    }
  }

  /** `getTimestamp()`-based default name when no scenario name (or an empty one) is given. */
  function ScenarioName(options: RecorderOptions, timestamp: string): (r: string)
    ensures options.scenarioName.Some? && options.scenarioName.value != "" ==> r == options.scenarioName.value
    ensures options.scenarioName.None? || options.scenarioName == Some("") ==> r == "scenario_" + timestamp
  {
    match options.scenarioName
    case Some(name) => if name != "" then name else "scenario_" + timestamp
    case None => "scenario_" + timestamp
  }

  class APIRecorder {
    const config: Config
    const json: JsonCodec
    const scenarioName: string
    /** The last sequence number handed out. */
    var seqNo: nat
    var entries: seq<Entry>
    /** Whether a browser is running (`this.browser !== null`). */
    var browserOpen: bool
    var startTime: Option<string>
    var baseUrl: Option<string>
    /** Every response handled so far, recorded or not. */
    ghost var history: seq<ResponseEvent>

    /** The entries are exactly those the handled responses give, numbered 1..seqNo. */
    ghost predicate Valid()
      reads this
    {
      && seqNo == |entries|
      && entries == Capture(config, json, history)
      && forall i :: 0 <= i < |entries| ==> entries[i].seqNo == i + 1
    }

    /** `new APIRecorder(options)`; `timestamp` is what getTimestamp() returns (src/recorder.js:136-145). */
    constructor (options: RecorderOptions, timestamp: string, json: JsonCodec)
      ensures Valid()
      ensures config == MergeConfig(options) && this.json == json
      ensures scenarioName == ScenarioName(options, timestamp)
      ensures seqNo == 0 && entries == [] && history == []
      ensures !browserOpen && startTime.None? && baseUrl.None?
    {
      config := MergeConfig(options);
      this.json := json;
      scenarioName := ScenarioName(options, timestamp);
      seqNo := 0;
      entries := [];
      browserOpen := false;
      startTime := None;
      baseUrl := None;
      history := [];
    }

    /**
     * `start(url)` once the browser is up: records the start time and the
     * origin of the URL and marks the browser open (src/recorder.js:159-182).
     */
    method Start(startedAt: string, origin: string)
      requires Valid()
      modifies this`startTime, this`baseUrl, this`browserOpen
      ensures Valid()
      ensures startTime == Some(startedAt) && baseUrl == Some(origin) && browserOpen
    {
      startTime := Some(startedAt);
      baseUrl := Some(origin);
      browserOpen := true;
    }

    /**
     * `handleResponse(response)`, run to completion without interleaving
     * (src/recorder.js:187-244). An out-of-scope response changes nothing the
     * recorder reports; an in-scope one takes the next number and appends
     * exactly one entry carrying it.
     */
    method HandleResponse(ev: ResponseEvent)
      requires Valid()
      modifies this`seqNo, this`entries, this`history
      ensures Valid()
      ensures history == old(history) + [ev]
      ensures !InScope(config, ev) ==> seqNo == old(seqNo) && entries == old(entries)
      ensures InScope(config, ev) ==>
                seqNo == old(seqNo) + 1 && entries == old(entries) + [BuildEntry(config, json, seqNo, ev)]
    {
      history := history + [ev];
      assert history[..|history| - 1] == old(history);
      if !MatchesIncludePatterns(ev.path, config.includePatterns) {
        return;
      }
      if MatchesExcludePatterns(ev.url, config.excludePatterns) {
        return;
      }
      if !StartsWith(ev.url, "http") {
        return;
      }
      seqNo := seqNo + 1;
      var requestHeaders := FilterHeaders(ev.requestHeaders);
      var responseHeaders := FilterHeaders(ev.responseHeaders);
      var entry := MakeEntry(seqNo, ev, requestHeaders, responseHeaders, config.bodySizeLimit, json);
      entries := entries + [entry];
    }

    /**
     * `filterHeaders(headers)`: walks the headers and copies those whose
     * lower-case name is on the allow-list (src/recorder.js:249-266).
     */
    method FilterHeaders(headers: map<string, string>) returns (filtered: map<string, string>)
      ensures filtered == AllowedHeaders(headers)
    {
      filtered := map[];
      var remaining := headers.Keys;
      while remaining != {}
        invariant remaining <= headers.Keys
        invariant filtered == map name | name in headers && name !in remaining && Kept(name) :: headers[name]
        decreases remaining
      {
        var name :| name in remaining;
        if ToLower(name) in KeepHeaders {
          filtered := filtered[name := headers[name]];
        }
        remaining := remaining - {name};
      }
    }

    /** The record stop hands back. */
    function Snapshot(): (r: SessionRecord)
      reads this
      ensures r.entries == entries && r.scenario == scenarioName
      ensures r.recordedAt == startTime && r.baseUrl == baseUrl
      ensures r.config == RecordedConfig(config.includePatterns, config.excludePatterns, config.bodySizeLimit)
    {
      SessionRecord(
        scenarioName, startTime, baseUrl,
        RecordedConfig(config.includePatterns, config.excludePatterns, config.bodySizeLimit),
        entries)
    }

    /**
     * `stop()`: closes the browser when one is open and returns the session
     * record (src/recorder.js:271-291). `released` says whether this call
     * closed the browser.
     */
    method Stop() returns (record: SessionRecord, released: bool)
      requires Valid()
      modifies this`browserOpen
      ensures Valid()
      ensures released == old(browserOpen) && !browserOpen
      ensures record == Snapshot()
      ensures |record.entries| == seqNo
      ensures forall i :: 0 <= i < |record.entries| ==> record.entries[i].seqNo == i + 1
    {
      released := false;
      if browserOpen {
        browserOpen := false;
        released := true;
      }
      record := Snapshot();
    }
  }

  /** Stopping twice returns the same record and closes the browser at most once. */
  method StopTwice(recorder: APIRecorder) returns (first: SessionRecord, second: SessionRecord, closedAgain: bool)
    requires recorder.Valid()
    modifies recorder
    ensures second == first && !closedAgain
  {
    var closed;
    first, closed := recorder.Stop();
    second, closedAgain := recorder.Stop();
  }
}
