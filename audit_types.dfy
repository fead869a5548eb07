/** The parsed `npm audit --json` report and the gate's configuration. */
module AuditTypes {
  import opened Wrappers
  import opened Severity

  /** One vulnerable path that an action would fix. `path` is the
      `>`-separated chain of package names from the top-level module. */
  datatype Resolve = Resolve(id: int, path: string, dev: bool, optional: bool, bundled: bool)

  /** A remediation step (`moduleName` is the report's `module` field, a
      keyword in Dafny); `action` is the verb npm suggests ("install",
      "update", ...) and `depth` the optional `--depth` of an update. */
  datatype Action = Action(action: string, moduleName: string, target: string,
                           resolves: seq<Resolve>, depth: Option<int>)

  /** The advisory fields the gate reads. */
  datatype Advisory = Advisory(id: int, title: string, severity: SeverityLevel, url: string)

  /** The parsed report. `actions` is `None` when the field is missing;
      advisories are keyed by their numeric id. */
  datatype AuditReport = AuditReport(actions: Option<seq<Action>>, advisories: map<int, Advisory>)

  /** The severity threshold of each dependency class. */
  datatype Thresholds = Thresholds(prod: SeverityLevel, dev: SeverityLevel, optional: SeverityLevel,
                                    bundled: SeverityLevel)

  /** The `audit` configuration: thresholds and excluded advisory ids. */
  datatype Config = Config(severityToBreak: Thresholds, exclude: seq<int>)

  /** The configuration used when no configuration source overrides it. */
  const DefaultConfig: Config := Config(Thresholds(All, All, Moderate, Off), [])

  /** Why the report could not be processed: a resolve names an advisory
      that the report does not hold (reading its severity throws). */
  datatype AuditError = MissingAdvisory(id: int)
}
