# ClickHouse exporter: per-request scrape resolution

This project models, in Dafny, the scrape handler of the multi-target
ClickHouse exporter for Prometheus. For each scrape request the handler:

1. loads `conf/conf.yml` (the module list) and drops any load error;
2. rejects a request without `target`, then one without `module`, with a
   fixed plain-text body;
3. scans every configured module entry and keeps the credentials of the
   **last** entry whose name equals `module`, because the loop never breaks;
4. answers `not found module in conf.yml` when no entry matched;
5. builds the scrape URI `"http://" + target`, parses it, builds the exporter
   and a fresh registry, and serves the request registry, followed by the
   process-wide default gatherer unless `clickhouse_only` is set.

Files:

- `wrappers.dfy`: `Option`, which stands for Go's nil pointers and nil errors.
- `configuration.dfy` (module `Configuration`): the `Config` and `Clickmodule`
  structs as datatypes, plus the credential pair.
- `exporter.dfy` (module `Exporter`): `loadConfig` as a function of an abstract
  file reader and decoder. The lookup loop is an imperative method
  (`LookupModule`) proved against the reference function `LastMatch`. The
  handler is a method (`Handle`) proved equal to the reference functions
  `Resolve` (how the request ends) and `Trace` (which effectful steps run, in
  order). Lemmas state the handler's properties in terms of those functions.

A request ends in one of four outcomes:

- `Reply(body)`: an error body.
- `Panic`: the nil configuration is dereferenced.
- `Fatal`: `url.Parse` failed and `log.Fatal` ends the process.
- `Scrape(plan)`: the scrape URI, the credential pair and the ordered gatherer
  list.

Three behaviours of the code are easy to misread, and the model keeps them as
written:

- Duplicate module names. A reader might expect the first entry with a
  matching name to win. The loop never breaks, so the last one wins.
  `DuplicateNameLastWins` exhibits the difference with two entries named
  `dup`, and `LastMatchIsFirstMatchWhenUnique` shows that the two rules agree
  when the name is unique.
- Load order. The configuration is loaded on every request, before either
  query parameter is checked, so even a request that is rejected for a missing
  parameter reads the file (`MissingTargetShortCircuits`, `FailedLoadOutcome`).
- Load failure. The load error is dropped, so it is never reported to the
  client. A request with both parameters then dereferences the nil
  configuration and panics (`UnreadableConfigScenario`).

The lookup takes the configuration by value and has no `modifies` clause, so
"the configuration is unchanged by the lookup" holds by construction. A
missing query parameter and an empty one are the same here, because
`Query().Get` returns `""` for both.

## Model

| member | source | states |
|---|---|---|
| Configuration.DuplicateNamesRepresentable | config.go:3-5 | a configuration may hold two entries with the same name and different credentials |
| Configuration.EmptyFieldsRepresentable | config.go:7-11 | an entry's name, user and password may all be empty strings |
| Exporter.ConfPath | clickhouse_exporter.go:110-111 | the configuration path is exactly `conf/conf.yml` when the working directory is unknown; otherwise it is the working directory, then `/` unless the directory already ends in `/`, then `conf/conf.yml` |
| Exporter.LoadConfig | clickhouse_exporter.go:109-122 | loading yields a configuration or an error, never both and never neither; a failed read gives `read conf.yml fail, path: <path>`; a successful read gives exactly what the decoder produced, and a decoding failure gives exactly `unmarshal conf.yml fail` |
| Exporter.LastMatchStep | clickhouse_exporter.go:69-75 | one loop step: a matching entry overwrites the credentials found so far, and a non-matching one leaves them alone |
| Exporter.LastMatchFoundIff | clickhouse_exporter.go:69-80 | the lookup finds credentials iff some entry's name equals the requested module exactly |
| Exporter.LastMatchIsLast | clickhouse_exporter.go:69-75 | the credentials found are those of a matching entry after which no entry matches |
| Exporter.LastMatchAt | clickhouse_exporter.go:69-75 | conversely, the last matching entry's credentials are the ones found |
| Exporter.LastMatchIsFirstMatchWhenUnique | clickhouse_exporter.go:69-75 | when at most one entry has the name, last-match and first-match lookups agree |
| Exporter.DuplicateNameLastWins | clickhouse_exporter.go:69-75 | with two entries named `dup`, the second one's credentials are used, where a first-match lookup would use the first one's |
| Exporter.LookupModule | clickhouse_exporter.go:66-80 | the scan sets `found` iff the configuration declares the module; when found, user and password are the last matching entry's; otherwise both stay empty |
| Exporter.ScrapeUri | clickhouse_exporter.go:82 | the scrape URI is `http://` followed by the target, unchanged |
| Exporter.TargetOfScrapeUri | clickhouse_exporter.go:82 | stripping `http://` from the scrape URI gives back exactly the requested target |
| Exporter.GatherersFor | clickhouse_exporter.go:94-98 | the gatherer list starts with the request registry, holds it only once, and contains the default gatherer iff `clickhouse_only` is off (one or two entries) |
| Exporter.BuildGatherers | clickhouse_exporter.go:94-98 | appending step by step yields exactly that gatherer list |
| Exporter.Handle | clickhouse_exporter.go:47-107 | the handler's outcome and its sequence of effects are those of the reference definitions `Resolve` and `Trace` |
| Exporter.MissingTargetShortCircuits | clickhouse_exporter.go:52-58 | with no target the body is `uri error, not found target`, whatever the module and configuration; only the configuration load has happened |
| Exporter.MissingModuleShortCircuits | clickhouse_exporter.go:60-64 | with a target but no module the body is `uri error, not found module`; only the configuration load has happened |
| Exporter.FailedLoadOutcome | clickhouse_exporter.go:52-69 | the load always comes first; a failed load is invisible when a parameter is missing, and with both parameters present it ends in a panic during the scan |
| Exporter.UnknownModuleIff | clickhouse_exporter.go:66-80 | with both parameters and a configuration, the body is `not found module in conf.yml` iff no entry has the module's name |
| Exporter.ScrapeIff | clickhouse_exporter.go:54-87 | a request is served iff both parameters are non-empty, the configuration loaded and declares the module, and the scrape URI parses |
| Exporter.ScrapePlanIsBound | clickhouse_exporter.go:66-98 | a served request scrapes `http://` + target, with the credentials of the last entry named by the (non-empty) module, and serves exactly the gatherer list `GatherersFor(clickhouse_only)`: the request registry first and once, then the default gatherer iff `clickhouse_only` is off |
| Exporter.ExporterBuiltIffScrape | clickhouse_exporter.go:84-105 | the exporter and registry are built, and metrics served, exactly for the requests that end in a scrape |
| Exporter.EmptyCredentialsAccepted | clickhouse_exporter.go:60-75 | a stored entry with an empty user and password is matched and used; only the request's module is checked for emptiness |
| Exporter.ConfiguredModuleScenario | clickhouse_exporter.go:47-98 | module `default` with `(u, p)` and target `db.internal:8123` scrapes `http://db.internal:8123` with `(u, p)`, serving the request registry then the default gatherer |
| Exporter.UnreadableConfigScenario | clickhouse_exporter.go:52-69 | when the file cannot be read, loading reports the read error, and a complete request then panics instead of answering |

## Left out

- HTTP serving and routing are not modelled: `main`, the landing page, `ListenAndServe` and `promhttp.HandlerFor(...).ServeHTTP`. Serving appears only as the `ServeMetrics` effect.
- `exporter.NewExporter`, `prometheus.NewRegistry`, `MustRegister` and `DefaultGatherer` are foreign code. They appear only as the `BuildExporter` effect and the `RequestRegistry` and `DefaultGatherer` tags.
- `url.Parse` is foreign. It is the oracle parameter `urlParses`, and its failure is the `Fatal` outcome.
- The `insecure` flag passed to the exporter is not modelled. It is only forwarded to foreign code.
- File reading and YAML decoding in `loadConfig` are I/O and a foreign decoder. They are the parameters `readFile` and `unmarshal`, and `os.Getwd` is the parameter `cwd`.
- ConfPath: models `filepath.Join` only for an already clean working directory. That is what `os.Getwd` returns. Lexical cleaning of `.` and `..` is not modelled.
- The handler writes the scrape URI into the process-wide `scrape_uri` flag. The model keeps it as a local value, so the race between concurrent requests is not modelled.
- Flag parsing and the `CLICKHOUSE_USER` / `CLICKHOUSE_PASSWORD` environment reads are not modelled. The handler's locals shadow them, and the handler never uses them.
- `Config.Modules` is a slice of pointers, so a nil entry would crash the scan. The model's entries are values and cannot be nil.
- Logging is not modelled.
