/** The policy filter: which resolves of an action break the build. */
module PolicyFilter {
  import opened Wrappers
  import opened Severity
  import opened AuditTypes

  /** The dependency classes a threshold is configured for. */
  datatype DepClass = Prod | Dev | Optional | Bundled

  /** A resolve with none of the three flags set is a production one. */
  predicate IsProd(r: Resolve) {
    !r.dev && !r.optional && !r.bundled
  }

  /** Every class a resolve belongs to; the flags may combine, and only a
      resolve without flags is a production one. */
  function Classes(r: Resolve): (cs: set<DepClass>)
    ensures cs != {}
    ensures Prod in cs ==> cs == {Prod}
    ensures Prod !in cs <==> r.dev || r.optional || r.bundled
    ensures Dev in cs <==> r.dev
    ensures Optional in cs <==> r.optional
    ensures Bundled in cs <==> r.bundled
  {
    (if IsProd(r) then {Prod} else {})
    + (if r.dev then {Dev} else {})
    + (if r.optional then {Optional} else {})
    + (if r.bundled then {Bundled} else {})
  }

  function Threshold(t: Thresholds, k: DepClass): SeverityLevel {
    match k
    case Prod => t.prod
    case Dev => t.dev
    case Optional => t.optional
    case Bundled => t.bundled
  }

  /** The filter predicate of the source, disjunct by disjunct, for a
      resolve whose advisory has severity `severity`. */
  predicate Breaks(r: Resolve, severity: SeverityLevel, cfg: Config) {
    var t := cfg.severityToBreak;
    r.id !in cfg.exclude && (
      (IsProd(r) && Admits(severity, t.prod)) ||
      (r.dev && Admits(severity, t.dev)) ||
      (r.optional && Admits(severity, t.optional)) ||
      (r.bundled && Admits(severity, t.bundled)))
  }

  /** A resolve is kept when its advisory is known and it breaks the policy. */
  predicate Kept(r: Resolve, advisories: map<int, Advisory>, cfg: Config) {
    r.id in advisories && Breaks(r, advisories[r.id].severity, cfg)
  }

  /** A resolve whose severity the filter must read but cannot: it is not
      excluded and its advisory is missing. */
  predicate Unresolvable(r: Resolve, advisories: map<int, Advisory>, cfg: Config) {
    r.id !in cfg.exclude && r.id !in advisories
  }

  /** `a` is `b` with some elements left out, order kept. */
  predicate IsSubsequence<T(==)>(a: seq<T>, b: seq<T>)
    decreases |b|
  {
    if a == [] then true
    else if b == [] then false
    else if a[0] == b[0] then IsSubsequence(a[1..], b[1..])
    else IsSubsequence(a, b[1..])
  }

  /** The `filter` over an action's resolves: it throws exactly when some
      resolve is unresolvable, and everything it keeps is a non-excluded
      resolve with a known advisory of ranked severity. */
  function FilterResolves(rs: seq<Resolve>, advisories: map<int, Advisory>, cfg: Config)
    : (r: Result<seq<Resolve>, AuditError>)
    ensures r.Err? <==> exists i :: 0 <= i < |rs| && Unresolvable(rs[i], advisories, cfg)
    ensures r.Ok? ==> forall x :: x in r.value ==> Kept(x, advisories, cfg) && x.id !in cfg.exclude
                                                   && Rank(advisories[x.id].severity).Some?
  {
    if rs == [] then Ok([])
    else
      var head := rs[0];
      if head.id in cfg.exclude then
        FilterResolves(rs[1..], advisories, cfg)
      else if head.id !in advisories then
        Err(MissingAdvisory(head.id))
      else
        var rest :- FilterResolves(rs[1..], advisories, cfg);
        Ok(if Breaks(head, advisories[head.id].severity, cfg) then [head] + rest else rest)
  }

  /** The error names the first unresolvable resolve, in order. */
  lemma {:induction false} FilterResolvesFirstError(rs: seq<Resolve>, advisories: map<int, Advisory>, cfg: Config)
    requires FilterResolves(rs, advisories, cfg).Err?
    ensures exists i :: 0 <= i < |rs| && Unresolvable(rs[i], advisories, cfg)
                        && FilterResolves(rs, advisories, cfg).error == MissingAdvisory(rs[i].id)
                        && forall j :: 0 <= j < i ==> !Unresolvable(rs[j], advisories, cfg)
  {
    if Unresolvable(rs[0], advisories, cfg) {
      assert Unresolvable(rs[0], advisories, cfg)
             && FilterResolves(rs, advisories, cfg).error == MissingAdvisory(rs[0].id);
    } else {
      FilterResolvesFirstError(rs[1..], advisories, cfg);
      var i :| 0 <= i < |rs[1..]| && Unresolvable(rs[1..][i], advisories, cfg)
               && FilterResolves(rs[1..], advisories, cfg).error == MissingAdvisory(rs[1..][i].id)
               && forall j :: 0 <= j < i ==> !Unresolvable(rs[1..][j], advisories, cfg);
      assert forall j :: 0 <= j < i + 1 ==> !Unresolvable(rs[j], advisories, cfg) by {
        forall j | 0 <= j < i + 1 ensures !Unresolvable(rs[j], advisories, cfg) {
          if j > 0 { assert rs[j] == rs[1..][j - 1]; }
        }
      }
      assert rs[i + 1] == rs[1..][i];
    }
  }

  /** Without an error, the filter keeps exactly the kept resolves, each as
      often as it occurs, in their original order. */
  lemma {:induction false} FilterResolvesContents(rs: seq<Resolve>, advisories: map<int, Advisory>, cfg: Config)
    requires FilterResolves(rs, advisories, cfg).Ok?
    ensures var kept := FilterResolves(rs, advisories, cfg).value;
            IsSubsequence(kept, rs) &&
            forall x :: multiset(kept)[x] == if Kept(x, advisories, cfg) then multiset(rs)[x] else 0
  {
    if rs != [] {
      var head, rest := rs[0], FilterResolves(rs[1..], advisories, cfg);
      assert rest.Ok?;
      FilterResolvesContents(rs[1..], advisories, cfg);
      assert rs == [head] + rs[1..];
      var kept := FilterResolves(rs, advisories, cfg).value;
      if kept == rest.value {
        SubsequenceSkip(kept, rs);
      } else {
        assert kept == [head] + rest.value;
        assert kept[1..] == rest.value;
      }
    }
  }

  /** The filter keeps something exactly when some resolve is kept. */
  lemma FilterKeepsSomeIffSomeKept(rs: seq<Resolve>, advisories: map<int, Advisory>, cfg: Config)
    requires FilterResolves(rs, advisories, cfg).Ok?
    ensures FilterResolves(rs, advisories, cfg).value != []
            <==> exists i :: 0 <= i < |rs| && Kept(rs[i], advisories, cfg)
  {
    var kept := FilterResolves(rs, advisories, cfg).value;
    FilterResolvesContents(rs, advisories, cfg);
    if exists i :: 0 <= i < |rs| && Kept(rs[i], advisories, cfg) {
      var i :| 0 <= i < |rs| && Kept(rs[i], advisories, cfg);
      assert multiset(kept)[rs[i]] > 0;
    }
    if kept != [] {
      var x := kept[0];
      assert multiset(kept)[x] > 0;
      assert x in multiset(rs);
      var i :| 0 <= i < |rs| && rs[i] == x;
    }
  }

  /** A subsequence of a sequence's tail is a subsequence of the sequence. */
  lemma {:induction false} SubsequenceSkip<T>(a: seq<T>, b: seq<T>)
    requires b != [] && IsSubsequence(a, b[1..])
    ensures IsSubsequence(a, b)
    decreases |b|, 0
  {
    if a != [] && a[0] == b[0] {
      SubsequenceTail(a, b[1..]);
    }
  }

  /** Dropping the head of a subsequence keeps it a subsequence. */
  lemma {:induction false} SubsequenceTail<T>(a: seq<T>, b: seq<T>)
    requires a != [] && IsSubsequence(a, b)
    ensures IsSubsequence(a[1..], b)
    decreases |b|, 1
  {
    if a[0] == b[0] {
      SubsequenceSkip(a[1..], b);
    } else {
      SubsequenceTail(a, b[1..]);
      SubsequenceSkip(a[1..], b);
    }
  }

  /** The filter predicate is a disjunction over every class the resolve
      belongs to: kept iff not excluded and some class's threshold admits
      the severity. */
  lemma BreaksIffSomeClassAdmits(r: Resolve, severity: SeverityLevel, cfg: Config)
    ensures Breaks(r, severity, cfg) <==>
            r.id !in cfg.exclude &&
            exists k :: k in Classes(r) && Admits(severity, Threshold(cfg.severityToBreak, k))
  {
    var t := cfg.severityToBreak;
    if Breaks(r, severity, cfg) {
      if IsProd(r) && Admits(severity, t.prod) {
        assert Prod in Classes(r) && Admits(severity, Threshold(t, Prod));
      } else if r.dev && Admits(severity, t.dev) {
        assert Dev in Classes(r) && Admits(severity, Threshold(t, Dev));
      } else if r.optional && Admits(severity, t.optional) {
        assert Optional in Classes(r) && Admits(severity, Threshold(t, Optional));
      } else {
        assert Bundled in Classes(r) && Admits(severity, Threshold(t, Bundled));
      }
    }
  }

  /** A resolve whose only class has threshold `off` is never kept
      (unless its advisory itself claims severity "off", which ranks 0). */
  lemma OffThresholdNeverKeeps(r: Resolve, severity: SeverityLevel, cfg: Config, k: DepClass)
    requires Classes(r) == {k}
    requires Threshold(cfg.severityToBreak, k) == Off
    requires severity != Off
    ensures !Breaks(r, severity, cfg)
  {
    BreaksIffSomeClassAdmits(r, severity, cfg);
  }

  /** Under threshold `all`, every non-excluded resolve of that class whose
      severity is in the rank table is kept. */
  lemma AllThresholdKeeps(r: Resolve, severity: SeverityLevel, cfg: Config, k: DepClass)
    requires k in Classes(r)
    requires Threshold(cfg.severityToBreak, k) == All
    requires r.id !in cfg.exclude
    requires !severity.Unlisted?
    ensures Breaks(r, severity, cfg)
  {
    BreaksIffSomeClassAdmits(r, severity, cfg);
  }

  /** Exclusion and an unlisted severity each rule a resolve out, whatever
      its flags and thresholds. */
  lemma ExcludedOrUnlistedNeverKept(r: Resolve, advisories: map<int, Advisory>, cfg: Config)
    requires r.id in cfg.exclude || (r.id in advisories && advisories[r.id].severity.Unlisted?)
    ensures !Kept(r, advisories, cfg)
  {
  }

  /** The flags combine by disjunction, not by first match: a resolve that
      is both dev and optional is kept through its optional class even
      though the dev threshold is `off`. */
  lemma FlagsCombineByDisjunction()
    ensures Breaks(Resolve(1, "a>b", true, true, false), High,
                   Config(Thresholds(All, Off, Moderate, Off), []))
    ensures !Breaks(Resolve(1, "a>b", true, false, false), High,
                    Config(Thresholds(All, Off, Moderate, Off), []))
  {
  }

  /** Under the default configuration, a production or dev resolve is kept
      for every listed severity, an optional-only one for `off`, `high` and
      `moderate`, and a bundled-only one for `off` alone (rank 0 <= 0). */
  lemma DefaultPolicy(r: Resolve, severity: SeverityLevel)
    requires r.id !in DefaultConfig.exclude
    requires !severity.Unlisted?
    ensures IsProd(r) || r.dev ==> Breaks(r, severity, DefaultConfig)
    ensures Classes(r) == {Optional} ==>
              (Breaks(r, severity, DefaultConfig) <==> severity in {Off, High, Moderate})
    ensures Classes(r) == {Bundled} ==> (Breaks(r, severity, DefaultConfig) <==> severity == Off)
  {
    if Classes(r) == {Optional} || Classes(r) == {Bundled} {
      BreaksIffSomeClassAdmits(r, severity, DefaultConfig);
    }
  }
}
