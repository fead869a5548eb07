/** The audit gate: per action, filter, order and render the kept
    advisories; over all actions, decide whether the build passes. */
module Audit {
  import opened Wrappers
  import opened Severity
  import opened AuditTypes
  import opened PolicyFilter
  import opened Ordering
  import opened Text
  import opened ResolveCommand

  /** One rendered advisory line: its severity icon, title and url. */
  datatype AdvisoryLine = AdvisoryLine(severity: SeverityLevel, title: string, url: string)

  /** The text rendered for an action with kept resolves: the module it
      was found under, the top-level package that uses it when that is
      another package, the advisory lines, the resolve command and the
      number of resolves the command fixes. */
  datatype ActionBlock = ActionBlock(moduleName: string, usedBy: Option<string>,
                                     lines: seq<AdvisoryLine>, command: string, resolveCount: nat)

  /** The report attached to the assertion: empty when `npm audit` exits 0,
      the parse-error text, or one output per action (`None` for an action
      rendered as the empty string). */
  datatype ReportBody = NoReport | ParseFailure | Blocks(outputs: seq<Option<ActionBlock>>)

  /** `auditPass` and the report text. */
  datatype Verdict = Verdict(pass: bool, body: ReportBody)

  /** How `npm audit --json` ended: exit status 0, or a failure whose
      standard output parsed to `details` (`None` for a falsy value). */
  datatype AuditRun = ExitedZero | ExitedNonZero(details: Option<AuditReport>)

  /** The report has a non-empty `actions` list. */
  predicate HasActions(details: Option<AuditReport>) {
    details.Some? && details.value.actions.Some? && |details.value.actions.value| > 0
  }

  /** The advisory ids of the kept resolves, in order. */
  function Ids(kept: seq<Resolve>): (ids: seq<int>)
    ensures |ids| == |kept|
    ensures forall i :: 0 <= i < |kept| ==> ids[i] == kept[i].id
  {
    seq(|kept|, i requires 0 <= i < |kept| => kept[i].id)
  }

  /** The value `nameModule` ends with: the first `>`-segment of the last
      kept resolve's path, or the action's module when none is kept. */
  function LastModule(kept: seq<Resolve>, moduleName: string): string {
    if kept == [] then moduleName else Split(kept[|kept| - 1].path, '>')[0]
  }

  /** One more kept resolve adds its id. */
  lemma IdsStep(kept: seq<Resolve>, i: nat)
    requires i < |kept|
    ensures Ids(kept[..i + 1]) == Ids(kept[..i]) + [kept[i].id]
  {
    assert Ids(kept[..i + 1])[i] == kept[i].id;
  }

  /** After one more kept resolve, `nameModule` is the first segment of its
      path. */
  lemma LastModuleStep(kept: seq<Resolve>, i: nat, moduleName: string)
    requires i < |kept|
    ensures LastModule(kept[..i + 1], moduleName) == Split(kept[i].path, '>')[0]
  {
    assert kept[..i + 1][i] == kept[i];
  }

  /** The advisory ids an action lists: each kept id once, by severity. */
  function ListedIds(kept: seq<Resolve>, advisories: map<int, Advisory>): seq<int> {
    SortByRank(Dedup(Ids(kept)), advisories)
  }

  function RenderLine(adv: Advisory): AdvisoryLine {
    AdvisoryLine(adv.severity, adv.title, adv.url)
  }

  function RenderLines(ids: seq<int>, advisories: map<int, Advisory>): (lines: seq<AdvisoryLine>)
    requires forall i :: 0 <= i < |ids| ==> ids[i] in advisories
    ensures |lines| == |ids|
    ensures forall i :: 0 <= i < |ids| ==> lines[i] == RenderLine(advisories[ids[i]])
  {
    seq(|ids|, i requires 0 <= i < |ids| => RenderLine(advisories[ids[i]]))
  }

  /** Kept resolves all have an advisory with a ranked severity. */
  predicate AllKnown(kept: seq<Resolve>, advisories: map<int, Advisory>) {
    forall i :: 0 <= i < |kept| ==> kept[i].id in advisories && Rank(advisories[kept[i].id].severity).Some?
  }

  /** The listed ids are exactly the kept ids, and there is one iff some
      resolve is kept. */
  lemma ListedIdsMembers(kept: seq<Resolve>, advisories: map<int, Advisory>)
    ensures forall id :: id in ListedIds(kept, advisories) <==> id in Ids(kept)
    ensures ListedIds(kept, advisories) == [] <==> kept == []
  {
    var r := ListedIds(kept, advisories);
    assert forall id :: id in r <==> id in multiset(r);
    if kept != [] {
      var x := Ids(kept)[0];
      assert x in Ids(kept);
      assert x in Dedup(Ids(kept));
      assert x in multiset(r);
    }
  }

  /** Every listed id has an advisory with a ranked severity. */
  lemma ListedIdsKnown(kept: seq<Resolve>, advisories: map<int, Advisory>)
    requires AllKnown(kept, advisories)
    ensures forall i :: 0 <= i < |ListedIds(kept, advisories)| ==>
              ListedIds(kept, advisories)[i] in advisories
              && Rank(advisories[ListedIds(kept, advisories)[i]].severity).Some?
  {
    ListedIdsMembers(kept, advisories);
    var r := ListedIds(kept, advisories);
    forall i | 0 <= i < |r|
      ensures r[i] in advisories && Rank(advisories[r[i]].severity).Some?
    {
      assert r[i] in Ids(kept);
      var j :| 0 <= j < |kept| && Ids(kept)[j] == r[i];
    }
  }

  /** The listed ids name each kept advisory once, most severe first, and
      ids of equal rank keep the order of their first occurrence. */
  lemma ListedIdsOrder(kept: seq<Resolve>, advisories: map<int, Advisory>)
    ensures var r := ListedIds(kept, advisories);
            && NoDuplicates(r)
            && |r| == |Dedup(Ids(kept))|
            && (forall i, j :: 0 <= i < j < |r| ==> RankOf(advisories, r[i]) <= RankOf(advisories, r[j]))
            && (forall k :: OfKey(r, RankKey(advisories), k) == OfKey(Dedup(Ids(kept)), RankKey(advisories), k))
  {
    var d := Dedup(Ids(kept));
    var r := ListedIds(kept, advisories);
    NoDuplicatesPermutation(d, r);
    assert |r| == |multiset(r)| == |multiset(d)| == |d|;
    forall k {
      StableSortOfKey(d, RankKey(advisories), k);
    }
  }

  /** The report of one action, as the `actions.map` callback computes it:
      the error the filter throws, `None` when nothing is kept, otherwise
      the block. */
  function ActionReport(a: Action, advisories: map<int, Advisory>, cfg: Config)
    : Result<Option<ActionBlock>, AuditError>
  {
    var kept :- FilterResolves(a.resolves, advisories, cfg);
    assert AllKnown(kept, advisories) by {
      assert forall i :: 0 <= i < |kept| ==> kept[i] in kept;
    }
    ListedIdsKnown(kept, advisories);
    var ids := ListedIds(kept, advisories);
    if ids == [] then Ok(None)
    else
      var nameModule := LastModule(kept, a.moduleName);
      Ok(Some(ActionBlock(a.moduleName, if a.moduleName != nameModule then Some(nameModule) else None,
                          RenderLines(ids, advisories), ResolveStatement(a), |a.resolves|)))
  }

  /** An action's report is an error exactly when one of its resolves is
      unresolvable. */
  lemma ActionReportError(a: Action, advisories: map<int, Advisory>, cfg: Config)
    ensures ActionReport(a, advisories, cfg).Err?
            <==> exists i :: 0 <= i < |a.resolves| && Unresolvable(a.resolves[i], advisories, cfg)
  {
  }

  /** An action renders a block exactly when one of its resolves is kept. */
  lemma ActionReportBlockIffKept(a: Action, advisories: map<int, Advisory>, cfg: Config)
    requires ActionReport(a, advisories, cfg).Ok?
    ensures ActionReport(a, advisories, cfg).value.Some?
            <==> exists i :: 0 <= i < |a.resolves| && Kept(a.resolves[i], advisories, cfg)
  {
    var kept := FilterResolves(a.resolves, advisories, cfg).value;
    ListedIdsMembers(kept, advisories);
    assert ActionReport(a, advisories, cfg).value.Some? <==> kept != [];
    FilterKeepsSomeIffSomeKept(a.resolves, advisories, cfg);
  }

  /** A block names the action's module, counts all its resolves, carries
      its resolve command, says "is used by" exactly when `nameModule`
      moved off the module, and lists one line per distinct kept
      advisory, most severe first. */
  lemma ActionReportBlock(a: Action, advisories: map<int, Advisory>, cfg: Config)
    requires ActionReport(a, advisories, cfg).Ok? && ActionReport(a, advisories, cfg).value.Some?
    ensures var b, kept := ActionReport(a, advisories, cfg).value.value,
                           FilterResolves(a.resolves, advisories, cfg).value;
            && b.moduleName == a.moduleName
            && b.resolveCount == |a.resolves|
            && b.command == ResolveStatement(a)
            && (b.usedBy.Some? <==> LastModule(kept, a.moduleName) != a.moduleName)
            && (b.usedBy.Some? ==> b.usedBy.value == LastModule(kept, a.moduleName))
            && (ListedIdsKnown(kept, advisories); b.lines == RenderLines(ListedIds(kept, advisories), advisories))
            && |b.lines| == |Dedup(Ids(kept))|
            && (forall i :: 0 <= i < |b.lines| ==> Rank(b.lines[i].severity).Some?)
            && (forall i, j :: 0 <= i < j < |b.lines| ==>
                  Rank(b.lines[i].severity).value <= Rank(b.lines[j].severity).value)
  {
    var kept := FilterResolves(a.resolves, advisories, cfg).value;
    assert AllKnown(kept, advisories) by {
      assert forall i :: 0 <= i < |kept| ==> kept[i] in kept;
    }
    ListedIdsKnown(kept, advisories);
    ListedIdsOrder(kept, advisories);
    var ids := ListedIds(kept, advisories);
    var lines := RenderLines(ids, advisories);
    forall i, j | 0 <= i < j < |lines|
      ensures Rank(lines[i].severity).value <= Rank(lines[j].severity).value
    {
      assert RankOf(advisories, ids[i]) <= RankOf(advisories, ids[j]);
    }
  }

  /** The `map` over the kept resolves: it returns each id and overwrites
      `nameModule` with the first `>`-segment of each path in turn. */
  method TrackModule(kept: seq<Resolve>, moduleName: string) returns (ids: seq<int>, nameModule: string)
    ensures ids == Ids(kept)
    ensures nameModule == LastModule(kept, moduleName)
  {
    nameModule := moduleName;
    ids := [];
    for i := 0 to |kept|
      invariant ids == Ids(kept[..i])
      invariant nameModule == LastModule(kept[..i], moduleName)
    {
      var packagePath := Split(kept[i].path, '>');
      LastModuleStep(kept, i, moduleName);
      if nameModule != packagePath[0] {
        nameModule := packagePath[0];
      }
      IdsStep(kept, i);
      ids := ids + [kept[i].id];
    }
    assert kept[..|kept|] == kept;
  }

  /** The `actions.map` callback for one action: filter, track the module
      while collecting the kept ids, then dedup, sort and render. */
  method ProcessAction(a: Action, advisories: map<int, Advisory>, cfg: Config)
    returns (r: Result<Option<ActionBlock>, AuditError>)
    ensures r == ActionReport(a, advisories, cfg)
  {
    var nameDep := a.moduleName;
    var filtered := FilterResolves(a.resolves, advisories, cfg);
    if filtered.Err? {
      return Err(filtered.error);
    }
    var kept := filtered.value;
    var ids, nameModule := TrackModule(kept, nameDep);
    assert AllKnown(kept, advisories) by {
      assert forall i :: 0 <= i < |kept| ==> kept[i] in kept;
    }
    var listed := SortByRank(Dedup(ids), advisories);
    assert listed == ListedIds(kept, advisories);
    ListedIdsKnown(kept, advisories);
    if listed == [] {
      return Ok(None);
    }
    var usedBy := if nameDep != nameModule then Some(nameModule) else None;
    r := Ok(Some(ActionBlock(nameDep, usedBy, RenderLines(listed, advisories), ResolveStatement(a),
                             |a.resolves|)));
  }

  /** Some resolve of some action is kept. */
  predicate AnyKept(actions: seq<Action>, advisories: map<int, Advisory>, cfg: Config) {
    exists i, j :: 0 <= i < |actions| && 0 <= j < |actions[i].resolves|
                   && Kept(actions[i].resolves[j], advisories, cfg)
  }

  /** Some resolve of some action is unresolvable. */
  predicate AnyUnresolvable(actions: seq<Action>, advisories: map<int, Advisory>, cfg: Config) {
    exists i, j :: 0 <= i < |actions| && 0 <= j < |actions[i].resolves|
                   && Unresolvable(actions[i].resolves[j], advisories, cfg)
  }

  /** Each action's report, in order: the callback of `actions.map`. */
  function Results(acts: seq<Action>, advs: map<int, Advisory>, cfg: Config)
    : (rs: seq<Result<Option<ActionBlock>, AuditError>>)
    ensures |rs| == |acts|
    ensures forall i :: 0 <= i < |acts| ==> rs[i] == ActionReport(acts[i], advs, cfg)
  {
    seq(|acts|, i requires 0 <= i < |acts| => ActionReport(acts[i], advs, cfg))
  }

  /** The `map` itself: the values in order, or the error of the first
      callback that throws. */
  function Collect<T, E>(rs: seq<Result<T, E>>): Result<seq<T>, E> {
    if rs == [] then Ok([])
    else
      var init :- Collect(rs[..|rs| - 1]);
      var last :- rs[|rs| - 1];
      Ok(init + [last])
  }

  /** Once a prefix throws, so does the whole sequence, with the same error. */
  lemma {:induction false} CollectPrefixError<T, E>(rs: seq<Result<T, E>>, n: nat)
    requires n <= |rs| && Collect(rs[..n]).Err?
    ensures Collect(rs) == Collect(rs[..n])
    decreases |rs|
  {
    if n < |rs| {
      var init := rs[..|rs| - 1];
      assert init[..n] == rs[..n];
      CollectPrefixError(init, n);
    } else {
      assert rs[..n] == rs;
    }
  }

  /** Collecting one more element: an error ends it, a value is appended. */
  lemma CollectStep<T, E>(rs: seq<Result<T, E>>, i: nat)
    requires i < |rs| && Collect(rs[..i]).Ok?
    ensures Collect(rs[..i + 1])
            == if rs[i].Err? then Err(rs[i].error) else Ok(Collect(rs[..i]).value + [rs[i].value])
  {
    assert rs[..i + 1][..i] == rs[..i];
  }

  /** Collecting succeeds exactly when every element is a value, and then
      holds those values in order. */
  lemma {:induction false} CollectEach<T, E>(rs: seq<Result<T, E>>)
    ensures Collect(rs).Ok? <==> forall i :: 0 <= i < |rs| ==> rs[i].Ok?
    ensures Collect(rs).Ok? ==>
              |Collect(rs).value| == |rs| && forall i :: 0 <= i < |rs| ==> rs[i] == Ok(Collect(rs).value[i])
  {
    if rs != [] {
      var init := rs[..|rs| - 1];
      CollectEach(init);
      assert forall i :: 0 <= i < |init| ==> init[i] == rs[i];
    }
  }

  /** When collecting fails, the error is that of the first element that is
      an error. */
  lemma {:induction false} CollectFirstError<T, E>(rs: seq<Result<T, E>>)
    requires Collect(rs).Err?
    ensures exists i :: 0 <= i < |rs| && rs[i] == Err(Collect(rs).error)
                        && forall j :: 0 <= j < i ==> rs[j].Ok?
  {
    var init := rs[..|rs| - 1];
    assert forall i :: 0 <= i < |init| ==> init[i] == rs[i];
    if Collect(init).Err? {
      CollectFirstError(init);
    } else {
      CollectEach(init);
      assert rs[|rs| - 1] == Err(Collect(rs).error);
    }
  }

  /** The outcome of mapping the report over all actions. */
  function Reports(acts: seq<Action>, advs: map<int, Advisory>, cfg: Config)
    : Result<seq<Option<ActionBlock>>, AuditError>
  {
    Collect(Results(acts, advs, cfg))
  }

  /** No action rendered a block. */
  predicate NoBlocks(outputs: seq<Option<ActionBlock>>) {
    forall i :: 0 <= i < |outputs| ==> outputs[i].None?
  }

  lemma NoBlocksAppend(outputs: seq<Option<ActionBlock>>, out: Option<ActionBlock>)
    ensures NoBlocks(outputs + [out]) <==> NoBlocks(outputs) && out.None?
  {
    var s := outputs + [out];
    assert forall i :: 0 <= i < |outputs| ==> s[i] == outputs[i];
    assert s[|outputs|] == out;
  }

  /** When the reports throw, the error is that of the first action whose
      report throws. */
  lemma ReportsFirstError(acts: seq<Action>, advs: map<int, Advisory>, cfg: Config)
    requires Reports(acts, advs, cfg).Err?
    ensures exists i :: 0 <= i < |acts| && ActionReport(acts[i], advs, cfg) == Err(Reports(acts, advs, cfg).error)
                        && forall j :: 0 <= j < i ==> ActionReport(acts[j], advs, cfg).Ok?
  {
    CollectFirstError(Results(acts, advs, cfg));
  }

  /** The run throws exactly when some resolve of some action is
      unresolvable; otherwise no action renders a block exactly when no
      resolve of any action is kept. */
  lemma ReportsVerdict(acts: seq<Action>, advs: map<int, Advisory>, cfg: Config)
    ensures Reports(acts, advs, cfg).Err? <==> AnyUnresolvable(acts, advs, cfg)
    ensures Reports(acts, advs, cfg).Ok? ==>
              (NoBlocks(Reports(acts, advs, cfg).value) <==> !AnyKept(acts, advs, cfg))
  {
    CollectEach(Results(acts, advs, cfg));
    forall i | 0 <= i < |acts|
      ensures ActionReport(acts[i], advs, cfg).Err?
              <==> exists j :: 0 <= j < |acts[i].resolves| && Unresolvable(acts[i].resolves[j], advs, cfg)
    {
      ActionReportError(acts[i], advs, cfg);
    }
    if Reports(acts, advs, cfg).Ok? {
      var outputs := Reports(acts, advs, cfg).value;
      forall i | 0 <= i < |acts|
        ensures outputs[i].Some?
                <==> exists j :: 0 <= j < |acts[i].resolves| && Kept(acts[i].resolves[j], advs, cfg)
      {
        ActionReportBlockIffKept(acts[i], advs, cfg);
      }
    }
  }

  /** The `actions.map` loop: each action's report in order, the first
      error ending it; `pass` stays true while no action renders a block. */
  method MapActions(acts: seq<Action>, advs: map<int, Advisory>, cfg: Config)
    returns (r: Result<seq<Option<ActionBlock>>, AuditError>, pass: bool)
    ensures r == Reports(acts, advs, cfg)
    ensures r.Ok? ==> (pass <==> NoBlocks(r.value))
  {
    pass := true;
    ghost var results := Results(acts, advs, cfg);
    var outputs: seq<Option<ActionBlock>> := [];
    for i := 0 to |acts|
      invariant Collect(results[..i]) == Ok(outputs)
      invariant pass <==> NoBlocks(outputs)
    {
      var out := ProcessAction(acts[i], advs, cfg);
      assert out == results[i];
      CollectStep(results, i);
      if out.Err? {
        CollectPrefixError(results, i + 1);
        return Err(out.error), pass;
      }
      NoBlocksAppend(outputs, out.value);
      if out.value.Some? {
        pass := false;
      }
      outputs := outputs + [out.value];
    }
    assert results[..|acts|] == results;
    r := Ok(outputs);
  }

  /** The test body: `auditPass` starts true; an exit status 0 passes with
      no report; a report without actions gives the parse-error text and
      still passes; otherwise the actions are processed in order, the
      first error ends the run, and `auditPass` turns false for every
      action that renders a block. */
  method RunAudit(run: AuditRun, cfg: Config) returns (r: Result<Verdict, AuditError>)
    ensures run.ExitedZero? ==> r == Ok(Verdict(true, NoReport))
    ensures run.ExitedNonZero? && !HasActions(run.details) ==> r == Ok(Verdict(true, ParseFailure))
    ensures run.ExitedNonZero? && HasActions(run.details) ==>
              r == match Reports(run.details.value.actions.value, run.details.value.advisories, cfg)
                   case Err(e) => Err(e)
                   case Ok(outputs) => Ok(Verdict(NoBlocks(outputs), Blocks(outputs)))
    ensures run.ExitedNonZero? && HasActions(run.details) ==>
              var acts, advs := run.details.value.actions.value, run.details.value.advisories;
              (r.Err? <==> AnyUnresolvable(acts, advs, cfg))
              && (r.Ok? ==> (r.value.pass <==> !AnyKept(acts, advs, cfg)))
  {
    var auditPass := true;
    if run.ExitedZero? {
      return Ok(Verdict(auditPass, NoReport));
    }
    var details := run.details;
    if !(details.Some? && details.value.actions.Some? && |details.value.actions.value| > 0) {
      return Ok(Verdict(auditPass, ParseFailure));
    }
    ReportsVerdict(details.value.actions.value, details.value.advisories, cfg);
    var outputs, pass := MapActions(details.value.actions.value, details.value.advisories, cfg);
    auditPass := auditPass && pass;
    match outputs
    case Err(e) => return Err(e);
    case Ok(blocks) => return Ok(Verdict(auditPass, Blocks(blocks)));
  }
}

/** Two end-to-end runs under the policy `{prod: "high", dev: "off"}`,
    with the remaining thresholds at their defaults. */
module AuditScenarios {
  import opened Wrappers
  import opened Severity
  import opened AuditTypes
  import opened PolicyFilter
  import opened Audit

  const Policy := Config(Thresholds(High, Off, Moderate, Off), [])

  const Advisories := map[1 := Advisory(1, "Regular Expression Denial of Service", Moderate, "https://npmjs.com/advisories/1"),
                          2 := Advisory(2, "Prototype Pollution", High, "https://npmjs.com/advisories/2")]

  /** A production resolve of a moderate advisory and a dev resolve of a
      high one. */
  const Quiet := Action("install", "lodash", "4.17.21",
                        [Resolve(1, "lodash", false, false, false),
                         Resolve(2, "mocha>lodash", true, false, false)], None)

  /** A production resolve of a high advisory. */
  const Loud := Action("install", "lodash", "4.17.21", [Resolve(2, "lodash", false, false, false)], None)

  /** A moderate production advisory misses the `high` threshold and `off`
      suppresses the dev one: nothing is kept, so the run passes. */
  lemma QuietRunPasses()
    ensures Reports([Quiet], Advisories, Policy).Ok?
    ensures NoBlocks(Reports([Quiet], Advisories, Policy).value)
  {
    var acts := [Quiet];
    assert forall j :: 0 <= j < |Quiet.resolves| ==>
      !Kept(Quiet.resolves[j], Advisories, Policy) && Quiet.resolves[j].id in Advisories;
    assert !AnyUnresolvable(acts, Advisories, Policy) && !AnyKept(acts, Advisories, Policy) by {
      assert forall i :: 0 <= i < |acts| ==> acts[i] == Quiet;
    }
    ReportsVerdict(acts, Advisories, Policy);
  }

  /** A high production advisory meets the `high` threshold: the action
      renders a block and the run fails. */
  lemma LoudRunFails()
    ensures Reports([Loud], Advisories, Policy).Ok?
    ensures !NoBlocks(Reports([Loud], Advisories, Policy).value)
  {
    var acts := [Loud];
    assert Loud.resolves[0].id in Advisories && Kept(Loud.resolves[0], Advisories, Policy);
    assert !AnyUnresolvable(acts, Advisories, Policy) && AnyKept(acts, Advisories, Policy) by {
      assert forall i :: 0 <= i < |acts| ==> acts[i] == Loud;
      assert |Loud.resolves| == 1;
      assert Kept(acts[0].resolves[0], Advisories, Policy);
    }
    ReportsVerdict(acts, Advisories, Policy);
  }
}
