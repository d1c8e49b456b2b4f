/**
 * The per-request scrape handler of the exporter: it loads the configuration,
 * checks the `target` and `module` query parameters, looks the module's
 * credentials up, builds the scrape URI and assembles the gatherers that the
 * Prometheus HTTP handler serves.  HTTP serving, the exporter itself, the
 * registry internals, file reading and YAML decoding are outside the model;
 * they appear only as opaque tags, effects and oracle parameters.
 */
module Exporter {
  import opened Wrappers
  import opened Configuration

  /** Response bodies written for the three request errors. */
  const NoTargetBody := "uri error, not found target"
  const NoModuleBody := "uri error, not found module"
  const UnknownModuleBody := "not found module in conf.yml"

  /** Relative location of the configuration file and loadConfig's error texts. */
  const ConfFile := "conf/conf.yml"
  const ReadFailPrefix := "read conf.yml fail, path: "
  const UnmarshalFailMessage := "unmarshal conf.yml fail"

  /** What `fmt.Sprintf("http://%v", target)` puts in front of the target. */
  const Scheme := "http://"

  // ---------------------------------------------------------------------------
  // loadConfig
  // ---------------------------------------------------------------------------

  /** The pair `(*Config, error)` that loadConfig returns. */
  datatype LoadResult = LoadResult(conf: Option<Config>, err: Option<string>)

  /**
   * `filepath.Join(cwd, "conf/conf.yml")` for a working directory as os.Getwd
   * reports it (already clean; "" when Getwd failed, since that error is dropped).
   */
  function ConfPath(cwd: string): (p: string)
    ensures |ConfFile| <= |p| && p[|p| - |ConfFile|..] == ConfFile
    ensures cwd == "" ==> p == ConfFile
    ensures cwd != "" ==> |cwd| < |p| && p[..|cwd|] == cwd
    ensures cwd != "" ==> p[|cwd|..] == (if cwd[|cwd| - 1] == '/' then "" else "/") + ConfFile
  {
    if cwd == "" then ConfFile
    else if cwd[|cwd| - 1] == '/' then cwd + ConfFile
    else cwd + "/" + ConfFile
  }

  /**
   * loadConfig: read the file at ConfPath(cwd) with `readFile` (None when the
   * read fails) and decode it with `unmarshal` (None when decoding fails).
   * Either a configuration with no error, or no configuration with an error.
   */
  function LoadConfig(cwd: string, readFile: string -> Option<seq<bv8>>,
                      unmarshal: seq<bv8> -> Option<Config>): (r: LoadResult)
    ensures r.conf.Some? <==> r.err.None?
    ensures readFile(ConfPath(cwd)).None? ==> r.err == Some(ReadFailPrefix + ConfPath(cwd))
    ensures readFile(ConfPath(cwd)).Some? ==> r.conf == unmarshal(readFile(ConfPath(cwd)).value)
    ensures readFile(ConfPath(cwd)).Some? && unmarshal(readFile(ConfPath(cwd)).value).None? ==>
              r.err == Some(UnmarshalFailMessage)
    ensures r.err.Some? ==> r.err == Some(ReadFailPrefix + ConfPath(cwd)) || r.err == Some(UnmarshalFailMessage)
  {
    var path := ConfPath(cwd);
    match readFile(path)
    case None => LoadResult(None, Some(ReadFailPrefix + path))
    case Some(data) =>
      match unmarshal(data)
      case None => LoadResult(None, Some(UnmarshalFailMessage))
      case Some(conf) => LoadResult(Some(conf), None)
  }

  // ---------------------------------------------------------------------------
  // Module lookup
  // ---------------------------------------------------------------------------

  /**
   * Reference definition of the lookup the handler performs: the credentials
   * of the LAST entry named `name`, because the scan never stops at a match.
   */
  function LastMatch(ms: seq<Clickmodule>, name: string): Option<Credentials>
  {
    if ms == [] then None
    else if ms[|ms| - 1].name == name then Some(CredentialsOf(ms[|ms| - 1]))
    else LastMatch(ms[..|ms| - 1], name)
  }

  /** First-match lookup, the resolution rule a reader might expect instead. */
  function FirstMatch(ms: seq<Clickmodule>, name: string): Option<Credentials>
  {
    if ms == [] then None
    else if ms[0].name == name then Some(CredentialsOf(ms[0]))
    else FirstMatch(ms[1..], name)
  }

  /** One more step of the scan: the entry just looked at wins if its name matches. */
  lemma LastMatchStep(ms: seq<Clickmodule>, i: nat, name: string)
    requires i < |ms|
    ensures LastMatch(ms[..i + 1], name)
         == if ms[i].name == name then Some(CredentialsOf(ms[i])) else LastMatch(ms[..i], name)
  {
    assert ms[..i + 1][..i] == ms[..i];
  }

  /** The lookup finds something exactly when some entry carries the name. */
  lemma {:induction false} LastMatchFoundIff(ms: seq<Clickmodule>, name: string)
    ensures LastMatch(ms, name).Some? <==> exists i :: 0 <= i < |ms| && ms[i].name == name
  {
    if ms != [] {
      var init := ms[..|ms| - 1];
      LastMatchFoundIff(init, name);
      if ms[|ms| - 1].name != name {
        if exists i :: 0 <= i < |ms| && ms[i].name == name {
          var i :| 0 <= i < |ms| && ms[i].name == name;
          assert init[i] == ms[i];
        }
      }
    }
  }

  /** What the lookup returns comes from a matching entry that no later entry overrides. */
  lemma {:induction false} LastMatchIsLast(ms: seq<Clickmodule>, name: string, c: Credentials)
    requires LastMatch(ms, name) == Some(c)
    ensures exists i :: 0 <= i < |ms| && ms[i].name == name && CredentialsOf(ms[i]) == c
                        && forall j :: i < j < |ms| ==> ms[j].name != name
  {
    var n := |ms| - 1;
    if ms[n].name != name {
      var init := ms[..n];
      LastMatchIsLast(init, name, c);
      var i :| 0 <= i < |init| && init[i].name == name && CredentialsOf(init[i]) == c
                && forall j :: i < j < |init| ==> init[j].name != name;
      assert ms[i] == init[i];
      assert forall j :: i < j < |ms| ==> ms[j].name != name by {
        forall j | i < j < |ms| ensures ms[j].name != name {
          if j < n { assert ms[j] == init[j]; }
        }
      }
    }
  }

  /** Conversely, a matching entry that no later entry overrides is the one returned. */
  lemma {:induction false} LastMatchAt(ms: seq<Clickmodule>, name: string, i: nat)
    requires i < |ms| && ms[i].name == name
    requires forall j :: i < j < |ms| ==> ms[j].name != name
    ensures LastMatch(ms, name) == Some(CredentialsOf(ms[i]))
  {
    var n := |ms| - 1;
    if i < n {
      var init := ms[..n];
      assert init[i] == ms[i];
      assert forall j :: i < j < |init| ==> init[j].name != name by {
        forall j | i < j < |init| ensures init[j].name != name {
          assert init[j] == ms[j];
        }
      }
      LastMatchAt(init, name, i);
    }
  }

  /** First-match lookup finds something exactly when some entry carries the name. */
  lemma {:induction false} FirstMatchFoundIff(ms: seq<Clickmodule>, name: string)
    ensures FirstMatch(ms, name).Some? <==> exists i :: 0 <= i < |ms| && ms[i].name == name
  {
    if ms != [] && ms[0].name != name {
      FirstMatchFoundIff(ms[1..], name);
      if exists i :: 0 <= i < |ms| && ms[i].name == name {
        var i :| 0 <= i < |ms| && ms[i].name == name;
        assert ms[1..][i - 1] == ms[i];
      }
    }
  }

  /** First-match lookup returns the earliest matching entry. */
  lemma {:induction false} FirstMatchAt(ms: seq<Clickmodule>, name: string, i: nat)
    requires i < |ms| && ms[i].name == name
    requires forall j :: 0 <= j < i ==> ms[j].name != name
    ensures FirstMatch(ms, name) == Some(CredentialsOf(ms[i]))
  {
    if i > 0 {
      var tail := ms[1..];
      assert tail[i - 1] == ms[i];
      assert forall j :: 0 <= j < i - 1 ==> tail[j].name != name by {
        forall j | 0 <= j < i - 1 ensures tail[j].name != name {
          assert tail[j] == ms[j + 1];
        }
      }
      FirstMatchAt(tail, name, i - 1);
    }
  }

  /** When at most one entry carries the name, last-match and first-match agree. */
  lemma LastMatchIsFirstMatchWhenUnique(ms: seq<Clickmodule>, name: string)
    requires forall i, j :: 0 <= i < |ms| && 0 <= j < |ms| && ms[i].name == name && ms[j].name == name ==> i == j
    ensures LastMatch(ms, name) == FirstMatch(ms, name)
  {
    LastMatchFoundIff(ms, name);
    FirstMatchFoundIff(ms, name);
    if exists i :: 0 <= i < |ms| && ms[i].name == name {
      var i :| 0 <= i < |ms| && ms[i].name == name;
      LastMatchAt(ms, name, i);
      FirstMatchAt(ms, name, i);
    }
  }

  /** With two entries named "dup" the later one's credentials are used, not the earlier one's. */
  lemma DuplicateNameLastWins()
    ensures var ms := [Clickmodule("dup", "alice", "a"), Clickmodule("dup", "bob", "b")];
            LastMatch(ms, "dup") == Some(Credentials("bob", "b"))
            && FirstMatch(ms, "dup") == Some(Credentials("alice", "a"))
  {
  }

  /**
   * The scan over `conf.modules` (the `for i` loop of the handler).  It takes
   * the configuration by value and changes nothing; `found` reports a match,
   * and `user`/`password` keep Go's zero value "" when nothing matched.
   */
  method LookupModule(conf: Config, moduleName: string) returns (found: bool, user: string, password: string)
    ensures found <==> Declares(conf, moduleName)
    ensures found ==> LastMatch(conf.modules, moduleName) == Some(Credentials(user, password))
    ensures !found ==> user == "" && password == ""
  {
    var ms := conf.modules;
    user, password, found := "", "", false;
    var i := 0;
    while i < |ms|
      invariant 0 <= i <= |ms|
      invariant found <==> LastMatch(ms[..i], moduleName).Some?
      invariant found ==> LastMatch(ms[..i], moduleName) == Some(Credentials(user, password))
      invariant !found ==> user == "" && password == ""
    {
      LastMatchStep(ms, i, moduleName);
      if ms[i].name == moduleName {
        user := ms[i].user;
        password := ms[i].password;
        found := true;
      }
      i := i + 1;
    }
    assert ms[..i] == ms;
    LastMatchFoundIff(ms, moduleName);
  }

  // ---------------------------------------------------------------------------
  // Scrape URI and gatherers
  // ---------------------------------------------------------------------------

  /** `fmt.Sprintf("http://%v", target)`: the URI the exporter scrapes. */
  function ScrapeUri(target: string): (uri: string)
    ensures |uri| == |Scheme| + |target|
    ensures uri[..|Scheme|] == Scheme && uri[|Scheme|..] == target
  {
    Scheme + target
  }

  /** The target a scrape URI was built from, if it has the scheme prefix. */
  function TargetOf(uri: string): (t: Option<string>)
    ensures t.Some? <==> |Scheme| <= |uri| && uri[..|Scheme|] == Scheme
  {
    if |Scheme| <= |uri| && uri[..|Scheme|] == Scheme then Some(uri[|Scheme|..]) else None
  }

  /** The exporter is bound to exactly the requested target. */
  lemma TargetOfScrapeUri(target: string)
    ensures TargetOf(ScrapeUri(target)) == Some(target)
  {
  }

  /** The sources served: the request's own registry, and the default gatherer unless restricted. */
  datatype Gatherer = RequestRegistry | DefaultGatherer

  /** The gatherer list for the `clickhouse_only` flag. */
  function GatherersFor(clickhouseOnly: bool): (gs: seq<Gatherer>)
    ensures |gs| == if clickhouseOnly then 1 else 2
    ensures gs[0] == RequestRegistry && RequestRegistry !in gs[1..]
    ensures DefaultGatherer in gs <==> !clickhouseOnly
  {
    if clickhouseOnly then [RequestRegistry] else [RequestRegistry, DefaultGatherer]
  }

  /** Appends the gatherers one by one, as the handler grows its slice. */
  method BuildGatherers(clickhouseOnly: bool) returns (gs: seq<Gatherer>)
    ensures gs == GatherersFor(clickhouseOnly)
  {
    gs := [];
    gs := gs + [RequestRegistry];
    if !clickhouseOnly {
      gs := gs + [DefaultGatherer];
    }
  }

  // ---------------------------------------------------------------------------
  // The handler
  // ---------------------------------------------------------------------------

  /** Everything a successful request hands to the exporter and the HTTP handler. */
  datatype ScrapePlan = ScrapePlan(uri: string, creds: Credentials, gatherers: seq<Gatherer>)

  /** How one request ends. */
  datatype Outcome =
    | Reply(body: string)      // a plain-text error body is written
    | Panic                    // the nil configuration is dereferenced
    | Fatal                    // url.Parse failed and log.Fatal ends the process
    | Scrape(plan: ScrapePlan) // metrics are collected and served

  /** The steps with effects beyond the handler, in the order it takes them. */
  datatype Effect =
    | ReadConfig     // loadConfig
    | ScanModules    // the lookup loop over the configuration
    | ParseUri       // url.Parse of the scrape URI
    | BuildExporter  // NewExporter, NewRegistry and MustRegister
    | ServeMetrics   // promhttp.HandlerFor(...).ServeHTTP

  /**
   * Reference definition of the handler's outcome, given the loaded
   * configuration (None when loading failed) and the URL parser as an oracle.
   */
  function Resolve(target: string, moduleName: string, conf: Option<Config>,
                   clickhouseOnly: bool, urlParses: string -> bool): Outcome
  {
    if target == "" then Reply(NoTargetBody)
    else if moduleName == "" then Reply(NoModuleBody)
    else if conf.None? then Panic
    else match LastMatch(conf.value.modules, moduleName)
      case None => Reply(UnknownModuleBody)
      case Some(creds) =>
        if !urlParses(ScrapeUri(target)) then Fatal
        else Scrape(ScrapePlan(ScrapeUri(target), creds, GatherersFor(clickhouseOnly)))
  }

  /** Reference definition of the effects the handler performs, in order. */
  function Trace(target: string, moduleName: string, conf: Option<Config>, urlParses: string -> bool): seq<Effect>
  {
    var afterChecks :=
      if conf.None? || LastMatch(conf.value.modules, moduleName).None? then []
      else [ParseUri] + (if urlParses(ScrapeUri(target)) then [BuildExporter, ServeMetrics] else []);
    [ReadConfig] + (if target == "" || moduleName == "" then [] else [ScanModules] + afterChecks)
  }

  /**
   * The handler closure for one request.  `loaded` is what loadConfig
   * returned; its error is ignored, as in the source.
   */
  method Handle(target: string, moduleName: string, loaded: LoadResult,
                clickhouseOnly: bool, urlParses: string -> bool)
    returns (outcome: Outcome, effects: seq<Effect>)
    ensures outcome == Resolve(target, moduleName, loaded.conf, clickhouseOnly, urlParses)
    ensures effects == Trace(target, moduleName, loaded.conf, urlParses)
  {
    effects := [ReadConfig];
    var conf := loaded.conf;
    if target == "" {
      outcome := Reply(NoTargetBody);
      return;
    }
    if moduleName == "" {
      outcome := Reply(NoModuleBody);
      return;
    }
    effects := effects + [ScanModules];
    if conf.None? {
      outcome := Panic;
      return;
    }
    var found, user, password := LookupModule(conf.value, moduleName);
    if !found {
      LastMatchFoundIff(conf.value.modules, moduleName);
      outcome := Reply(UnknownModuleBody);
      return;
    }
    var uri := ScrapeUri(target);
    effects := effects + [ParseUri];
    if !urlParses(uri) {
      outcome := Fatal;
      return;
    }
    effects := effects + [BuildExporter];
    var gatherers := BuildGatherers(clickhouseOnly);
    effects := effects + [ServeMetrics];
    outcome := Scrape(ScrapePlan(uri, Credentials(user, password), gatherers));
  }

  // ---------------------------------------------------------------------------
  // Properties of the handler
  // ---------------------------------------------------------------------------

  /**
   * The target is checked first: without it the body is the target message,
   * whatever the module and the configuration, and nothing but the load happens.
   */
  lemma MissingTargetShortCircuits(moduleName: string, conf: Option<Config>, only: bool, urlParses: string -> bool)
    ensures Resolve("", moduleName, conf, only, urlParses) == Reply(NoTargetBody)
    ensures Trace("", moduleName, conf, urlParses) == [ReadConfig]
  {
  }

  /** With a target but no module the body is the module message and nothing but the load happens. */
  lemma MissingModuleShortCircuits(target: string, conf: Option<Config>, only: bool, urlParses: string -> bool)
    requires target != ""
    ensures Resolve(target, "", conf, only, urlParses) == Reply(NoModuleBody)
    ensures Trace(target, "", conf, urlParses) == [ReadConfig]
  {
  }

  /**
   * The configuration is loaded before the parameters are checked and its error
   * is dropped: a failed load is invisible when a parameter is missing, and
   * otherwise ends in a nil dereference during the scan.
   */
  lemma FailedLoadOutcome(target: string, moduleName: string, c: Config, only: bool, urlParses: string -> bool)
    ensures Trace(target, moduleName, None, urlParses)[0] == ReadConfig
    ensures target == "" || moduleName == "" ==>
              Resolve(target, moduleName, None, only, urlParses) == Resolve(target, moduleName, Some(c), only, urlParses)
    ensures target != "" && moduleName != "" ==>
              Resolve(target, moduleName, None, only, urlParses) == Panic
              && Trace(target, moduleName, None, urlParses) == [ReadConfig, ScanModules]
  {
  }

  /** With both parameters and a configuration, the "not found" body is written exactly when no entry has the name. */
  lemma UnknownModuleIff(target: string, moduleName: string, c: Config, only: bool, urlParses: string -> bool)
    requires target != "" && moduleName != ""
    ensures Resolve(target, moduleName, Some(c), only, urlParses) == Reply(UnknownModuleBody) <==> !Declares(c, moduleName)
  {
    LastMatchFoundIff(c.modules, moduleName);
  }

  /** A request is served exactly when both parameters are present, the module is configured and the URI parses. */
  lemma ScrapeIff(target: string, moduleName: string, conf: Option<Config>, only: bool, urlParses: string -> bool)
    ensures Resolve(target, moduleName, conf, only, urlParses).Scrape?
        <==> target != "" && moduleName != "" && conf.Some? && Declares(conf.value, moduleName)
             && urlParses(Scheme + target)
  {
    if conf.Some? {
      LastMatchFoundIff(conf.value.modules, moduleName);
    }
  }

  /**
   * A served request scrapes "http://" + target with the credentials of the
   * last entry named `moduleName`, and serves the request registry first.
   */
  lemma ScrapePlanIsBound(target: string, moduleName: string, c: Config, only: bool, urlParses: string -> bool, p: ScrapePlan)
    requires Resolve(target, moduleName, Some(c), only, urlParses) == Scrape(p)
    ensures p.uri == Scheme + target && TargetOf(p.uri) == Some(target)
    ensures moduleName != ""
    ensures exists i :: 0 <= i < |c.modules| && c.modules[i].name == moduleName
                        && p.creds == CredentialsOf(c.modules[i])
                        && forall j :: i < j < |c.modules| ==> c.modules[j].name != moduleName
    ensures p.gatherers == GatherersFor(only)
    ensures p.gatherers[0] == RequestRegistry && RequestRegistry !in p.gatherers[1..]
    ensures DefaultGatherer in p.gatherers <==> !only
  {
    LastMatchIsLast(c.modules, moduleName, p.creds);
  }

  /** The exporter is built, and metrics served, exactly for the requests that end in a scrape. */
  lemma ExporterBuiltIffScrape(target: string, moduleName: string, conf: Option<Config>, only: bool, urlParses: string -> bool)
    ensures BuildExporter in Trace(target, moduleName, conf, urlParses)
        <==> Resolve(target, moduleName, conf, only, urlParses).Scrape?
    ensures ServeMetrics in Trace(target, moduleName, conf, urlParses)
        <==> Resolve(target, moduleName, conf, only, urlParses).Scrape?
  {
  }

  /** A module whose entry has an empty user and password is still served, with those empty credentials. */
  lemma EmptyCredentialsAccepted(urlParses: string -> bool)
    requires urlParses("http://db:8123")
    ensures Resolve("db:8123", "m", Some(Config([Clickmodule("m", "", "")])), true, urlParses)
         == Scrape(ScrapePlan("http://db:8123", Credentials("", ""), [RequestRegistry]))
  {
    assert Scheme + "db:8123" == "http://db:8123";
  }

  /** A request for module `default` on db.internal:8123 scrapes that host with `default`'s credentials. */
  lemma ConfiguredModuleScenario(urlParses: string -> bool)
    requires urlParses("http://db.internal:8123")
    ensures Resolve("db.internal:8123", "default", Some(Config([Clickmodule("default", "u", "p")])), false, urlParses)
         == Scrape(ScrapePlan("http://db.internal:8123", Credentials("u", "p"), [RequestRegistry, DefaultGatherer]))
  {
    assert Scheme + "db.internal:8123" == "http://db.internal:8123";
  }

  /** When conf/conf.yml cannot be read, a complete request panics instead of reporting the load error. */
  lemma UnreadableConfigScenario(cwd: string, unmarshal: seq<bv8> -> Option<Config>, only: bool, urlParses: string -> bool)
    ensures var loaded := LoadConfig(cwd, (path: string) => None, unmarshal);
            loaded.err == Some(ReadFailPrefix + ConfPath(cwd))
            && Resolve("db.internal:8123", "default", loaded.conf, only, urlParses) == Panic
  {
  }
}
