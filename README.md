# npm audit gate — verified model

`mocha_audit.spec.ts` is a Mocha test that runs `npm audit --json` and fails
the build when the audit report contains an advisory that the configured
policy considers breaking. This project models the logic of that test:

- the severity rank table;
- the per-resolve policy filter (exclusions and per-class severity thresholds);
- the per-action pipeline: filter, record the advisory ids and track
  `nameModule`, dedup, stable sort by severity, render;
- `buildResolveStatement` and `isDev`;
- the `auditPass` verdict over all actions.

Modules:

- `Wrappers`: `Option` and `Result`.
- `Severity`: severity levels, the rank table and the `<=` comparison
  between a severity and a threshold.
- `AuditTypes`: the parsed `npm audit` report (actions, resolves,
  advisories) and the configuration, with its defaults.
- `PolicyFilter`: the `filter` over an action's resolves.
- `Text`: `split` on a separator, its inverse `Join`, and decimal rendering
  of the `--depth` number.
- `Ordering`: first-occurrence dedup (`ads.indexOf(adId) === idx`) and the
  stable sort by rank.
- `ResolveCommand`: `isDev` and `buildResolveStatement`, with a parser for
  the statement as its partner.
- `Audit`: the `actions.map` callback, as a method (`ProcessAction`, with
  the `nameModule` loop in `TrackModule`) proved against a function
  (`ActionReport`); the map over all actions
  (`MapActions`); and the test body (`RunAudit`).
- `AuditScenarios`: two concrete runs under the policy
  `{prod: "high", dev: "off"}`.

How the source's values are represented:

- Severities are parsed into `Severity.Level`. A spelling outside the rank
  table, such as npm's `critical` or `info`, stays `Unlisted` and has no
  rank. Reports and configurations hold `Severity.SeverityLevel`, the
  levels that stand for exactly one string, so `Unlisted("high")` cannot
  occur there.
- The action field `module` is named `moduleName`, because `module` is a
  Dafny keyword.
- A thrown `TypeError` (reading `.severity` of a missing advisory) is the
  error value `MissingAdvisory(id)`.
- The rendered text is abstract: a block records the module, the "is used
  by" package, the advisory lines (severity, title, url), the resolve
  command and the resolve count.

Behaviour worth knowing:

- The thresholds combine by disjunction over every flag that is set: a
  resolve is kept when any one of its classes' thresholds admits its
  severity (mocha_audit.spec.ts:164-170).
- A report whose `actions` list is missing or empty gives the parse-error
  text and leaves `auditPass` true (mocha_audit.spec.ts:144, 218-220).
- Severity `critical` is not in the rank table, so its rank is
  `undefined`, and `undefined <= n` is false (mocha_audit.spec.ts:166-169):
  a critical advisory never breaks the build.

## Model

| member | source | states |
|---|---|---|
| Severity.ParseLevel | mocha_audit.spec.ts:113-119 | a severity string becomes a listed level exactly when it is a key of the rank table; otherwise it is kept as written |
| Severity.ParseName | mocha_audit.spec.ts:113-119 | parsing the name of a level gives back that level |
| Severity.Rank | mocha_audit.spec.ts:113-119 | exactly the five table keys have a rank; ranks are at most 4; rank 0 is exactly `off` and rank 4 exactly `all` |
| Severity.Admits | mocha_audit.spec.ts:166-169 | `rank(sev) <= rank(threshold)` is false when either side is unlisted; `off` admits only `off`; `all` admits every listed severity; `high` admits `off`/`high`; `moderate` admits `off`/`high`/`moderate`; `low` admits `off`/`high`/`moderate`/`low` |
| Severity.AdmitsMonotone | mocha_audit.spec.ts:113-119 | raising a threshold never drops a severity it admitted |
| PolicyFilter.Classes | mocha_audit.spec.ts:158-161 | a resolve belongs to at least one class; it is a production resolve exactly when no flag is set, and then to no other class; it is a dev, optional or bundled resolve exactly when its `dev`, `optional` or `bundled` flag is set |
| PolicyFilter.Breaks | mocha_audit.spec.ts:164-170 | definition of the filter predicate, disjunct by disjunct; its properties are stated by BreaksIffSomeClassAdmits, OffThresholdNeverKeeps, AllThresholdKeeps and DefaultPolicy |
| PolicyFilter.Kept | mocha_audit.spec.ts:162-170 | definition: the advisory is present and the resolve breaks the policy; its properties are stated by FilterResolvesContents and ExcludedOrUnlistedNeverKept |
| PolicyFilter.Unresolvable | mocha_audit.spec.ts:162-166 | definition: not excluded and no advisory, the case where reading `.severity` throws; its properties are stated by FilterResolves and FilterResolvesFirstError |
| PolicyFilter.FilterResolves | mocha_audit.spec.ts:155-172 | the filter throws exactly when some non-excluded resolve has no advisory; everything it keeps is non-excluded, has an advisory with a ranked severity, and breaks the policy |
| PolicyFilter.FilterResolvesFirstError | mocha_audit.spec.ts:162-166 | the error names the first non-excluded resolve without an advisory |
| PolicyFilter.FilterResolvesContents | mocha_audit.spec.ts:155-172 | the kept resolves are a subsequence of the resolves, containing each kept resolve as often as it occurs and nothing else |
| PolicyFilter.FilterKeepsSomeIffSomeKept | mocha_audit.spec.ts:155-172 | the filter keeps something exactly when some resolve breaks the policy |
| PolicyFilter.BreaksIffSomeClassAdmits | mocha_audit.spec.ts:164-170 | a resolve breaks the policy iff it is not excluded and the threshold of at least one of its classes admits its severity |
| PolicyFilter.OffThresholdNeverKeeps | mocha_audit.spec.ts:164-170 | a resolve whose only class has threshold `off` is never kept (for any severity other than `off` itself) |
| PolicyFilter.AllThresholdKeeps | mocha_audit.spec.ts:164-170 | under threshold `all`, every non-excluded resolve of that class with a listed severity is kept |
| PolicyFilter.ExcludedOrUnlistedNeverKept | mocha_audit.spec.ts:157-170 | an excluded id, or an advisory with a severity outside the table, is never kept, whatever the flags and thresholds |
| PolicyFilter.FlagsCombineByDisjunction | mocha_audit.spec.ts:164-170 | a dev and optional resolve is kept through its optional threshold even though the dev threshold is `off` |
| PolicyFilter.DefaultPolicy | mocha_audit.spec.ts:84-94 | under the defaults, production and dev resolves are kept for every listed severity; optional-only ones exactly for `off`, `high` and `moderate`; bundled-only ones exactly for `off` (rank 0 <= 0) |
| AuditTypes.DefaultConfig | mocha_audit.spec.ts:84-94 | definition of the defaults prod `all`, dev `all`, optional `moderate`, bundled `off`, no exclusions; used by DefaultPolicy |
| Text.FirstSegment | mocha_audit.spec.ts:176 | `split(">")[0]` is the longest prefix without the separator, followed in the string by the separator or by its end |
| Text.FirstSegmentOf | mocha_audit.spec.ts:176 | the first segment of `a + ">" + b` is `a` when `a` has no separator |
| Text.Split | mocha_audit.spec.ts:176 | splitting gives at least one part, the first part is the first segment, and no part contains the separator |
| Text.SplitJoin | mocha_audit.spec.ts:176 | joining the parts of a split with the separator gives back the string |
| Text.JoinSplit | mocha_audit.spec.ts:176 | splitting a join of separator-free parts gives back the parts |
| Text.DecimalRoundTrip | mocha_audit.spec.ts:256 | the rendered depth number reads back as the same integer and contains no space |
| Ordering.FirstIndex | mocha_audit.spec.ts:185 | `indexOf` is the index of an occurrence with no earlier occurrence |
| Ordering.Dedup | mocha_audit.spec.ts:185 | the deduplicated ids have no duplicates and the same set of ids as the input |
| Ordering.DedupFirstOccurrenceOrder | mocha_audit.spec.ts:185 | the deduplicated ids keep the order of their first occurrences in the input |
| Ordering.StableSort | mocha_audit.spec.ts:187-192 | the sort is a permutation of its input, in non-decreasing key order |
| Ordering.StableSortOfKey | mocha_audit.spec.ts:187-192 | for every key, the ids of that key keep their relative order (stability) |
| Ordering.SortByRank | mocha_audit.spec.ts:187-192 | the sort by advisory rank is a permutation, with high before moderate before low |
| ResolveCommand.NonDevCount | mocha_audit.spec.ts:271 | the count of non-dev resolves is at most the number of resolves, and zero exactly when every resolve is dev |
| ResolveCommand.IsDev | mocha_audit.spec.ts:269-272 | `isDev` holds exactly when every resolve is dev, so also for an empty list |
| ResolveCommand.ResolveStatement | mocha_audit.spec.ts:236-260 | the statement starts with `npm ` |
| ResolveCommand.VerbFlag | mocha_audit.spec.ts:239-243 | definition: `i ` for install, `up ` for update, nothing otherwise; read back by ResolveStatementRoundTrip |
| ResolveCommand.DevFlag | mocha_audit.spec.ts:246-248 | definition: `-D ` exactly when `isDev`; read back by ResolveStatementRoundTrip |
| ResolveCommand.HasDepth | mocha_audit.spec.ts:254 | definition of the truthiness of `depth`: present and non-zero |
| ResolveCommand.DepthFlag | mocha_audit.spec.ts:254-257 | definition: `--depth N` exactly when the depth is truthy; read back by ResolveStatementRoundTrip with DecimalRoundTrip |
| ResolveCommand.StatementIsJoinOfWords | mocha_audit.spec.ts:236-260 | the statement is its words (`npm`, optional verb, optional `-D`, `module@target`, optional `--depth N`) joined by single spaces |
| ResolveCommand.ParseWordsOfAction | mocha_audit.spec.ts:236-260 | the words of a statement read back as the intended command |
| ResolveCommand.ResolveStatementRoundTrip | mocha_audit.spec.ts:236-260 | parsing the statement recovers the verb (`i` only for install, `up` only for update), `-D` iff `isDev`, the module, the target, and the depth iff it is present and non-zero |
| ResolveCommand.LodashExample | mocha_audit.spec.ts:236-260 | a dev-only install of `lodash@4.17.21` with no depth gives `npm i -D lodash@4.17.21 ` |
| Audit.Ids | mocha_audit.spec.ts:174-183 | the `map` returns the id of each kept resolve, in order |
| Audit.LastModule | mocha_audit.spec.ts:174-183 | definition of the final `nameModule`: the first `>`-segment of the last kept path, or the module; TrackModule proves the loop computes it and ActionReportBlock ties it to the "is used by" line |
| Audit.RenderLines | mocha_audit.spec.ts:194-201 | one line per listed advisory, with that advisory's severity, title and url |
| Audit.ListedIdsMembers | mocha_audit.spec.ts:184-192 | the listed ids are exactly the kept ids, and there are none exactly when nothing is kept |
| Audit.ListedIdsKnown | mocha_audit.spec.ts:187-196 | every listed id has an advisory with a ranked severity, so the comparator and the renderer read defined values |
| Audit.ListedIdsOrder | mocha_audit.spec.ts:184-192 | the listed ids have no duplicates, are as many as the distinct kept ids, are in non-decreasing rank, and keep first-occurrence order within a rank |
| Audit.ActionReportError | mocha_audit.spec.ts:162-166 | an action's report throws exactly when one of its resolves is non-excluded and has no advisory |
| Audit.ActionReport | mocha_audit.spec.ts:146-217 | definition of the `actions.map` callback; its properties are stated by ActionReportError, ActionReportBlockIffKept and ActionReportBlock, and ProcessAction computes it |
| Audit.ActionReportBlockIffKept | mocha_audit.spec.ts:203-207 | an action renders a block (rather than `""`) exactly when one of its resolves is kept |
| Audit.ActionReportBlock | mocha_audit.spec.ts:209-216 | a block names the module, counts all of the action's resolves (filtered or not), carries the resolve statement, has an "is used by" line exactly when the final `nameModule` differs from the module, and its lines are exactly the rendering of the listed ids (one per distinct kept advisory, by ListedIdsMembers and ListedIdsOrder) in non-decreasing rank |
| Audit.TrackModule | mocha_audit.spec.ts:174-183 | the loop over the kept resolves returns their ids in order and leaves `nameModule` at the first `>`-segment of the last kept path, or at the action's module when none is kept |
| Audit.ProcessAction | mocha_audit.spec.ts:146-217 | the callback (filter, module tracking, dedup, sort, render) computes exactly the action's report |
| Audit.Results | mocha_audit.spec.ts:146 | the `map` callback's result for each action, in order |
| Audit.CollectPrefixError | mocha_audit.spec.ts:146-217 | once an action's callback throws, the whole `map` throws that error |
| Audit.Collect | mocha_audit.spec.ts:146 | definition of a `map` whose callback can throw; its properties are stated by CollectPrefixError, CollectStep, CollectEach and CollectFirstError |
| Audit.Reports | mocha_audit.spec.ts:146 | definition: the `map` over all actions; its properties are stated by ReportsFirstError and ReportsVerdict |
| Audit.CollectStep | mocha_audit.spec.ts:146-217 | each further callback either throws or appends its output |
| Audit.CollectEach | mocha_audit.spec.ts:146-217 | the `map` succeeds exactly when every callback does, and then holds each output in order |
| Audit.CollectFirstError | mocha_audit.spec.ts:146-217 | a failing `map` fails with the error of the first callback that throws |
| Audit.NoBlocksAppend | mocha_audit.spec.ts:203-207 | the outputs stay free of blocks exactly when the earlier ones were and the new one is `""` |
| Audit.ReportsFirstError | mocha_audit.spec.ts:146-217 | a failing run fails with the error of the first action whose report throws |
| Audit.ReportsVerdict | mocha_audit.spec.ts:203-207 | the run throws exactly when some resolve of some action is unresolvable; otherwise no action renders a block exactly when no resolve of any action is kept |
| Audit.MapActions | mocha_audit.spec.ts:146-217 | the loop over the actions computes the `map` and leaves `pass` true exactly when no action rendered a block |
| Audit.RunAudit | mocha_audit.spec.ts:128-220 | exit 0 passes with an empty report; missing or empty `actions` gives the parse-error text and passes; otherwise the outputs are the per-action reports, the run throws exactly when a resolve is unresolvable, and `auditPass` ends false exactly when some resolve of some action is kept |
| AuditScenarios.QuietRunPasses | mocha_audit.spec.ts:155-207 | under `{prod: high, dev: off}`, a moderate production advisory and a high dev advisory break nothing, so the run passes |
| AuditScenarios.LoudRunFails | mocha_audit.spec.ts:155-207 | under the same policy, a high production advisory renders a block, so the run fails |

## Left out

- Running `npm audit --json` through `child-process-promise`: the process's outcome is the input `AuditRun`. Exit status 0 is `ExitedZero`, and a failure carries the parsed standard output.
- `JSON.parse` of the standard output: the report arrives already parsed. A parse exception is not modelled, and a falsy parse result is `None`.
- Loading the configuration through `rc` from files and the environment: the configuration is a parameter. The defaults are `AuditTypes.DefaultConfig`.
- The Mocha `suite`/`test`/`this.timeout` wrapper and chai's `assert.isOk`: the verdict is returned as `Verdict(pass, body)` instead of being asserted.
- ANSI colour codes, `log-symbols` icons and the exact report bytes (header, indentation, newline joins, the trailing spaces): rendered lines and blocks are abstract records.
- Advisory fields the logic never reads (findings, metadata, CWE, overview, dates, authors) and the unused `isMajor` field of an action.
- Advisory map keys: the source indexes `advisories` by the id's decimal string. The model keys the map by the integer id, which gives the same lookups.
- Keys inherited from a JavaScript object's prototype are not modelled.
- A `depth` that is not an integer (a fraction or `NaN`) is not modelled: depth is an optional integer, present and non-zero exactly when it is truthy.
- Text.IntToDecimal: renders every integer in plain decimal. JavaScript prints a number of magnitude 1e21 or more in exponent form (`1e+21`), and integers beyond 2^53 are not exact numbers there. The model assumes the depth is below those bounds.
- The report is assumed to carry `advisories`, every action's `resolves` and every resolve's `path`. Without `advisories`, the source throws a `TypeError` on the first resolve it filters (mocha_audit.spec.ts:162), even an excluded one.
- ResolveCommand.ResolveStatementRoundTrip: holds only for module names and targets without spaces, and targets without `@`, as npm package names and versions are. Other strings can make the statement ambiguous.
- AuditScenarios.QuietRunPasses: states the pass (no block) but not the rendered outputs themselves.
