/** Severity levels and the rank table that orders them. */
module Severity {
  import opened Wrappers

  /** A severity as spelled in an advisory or in the configuration.
      The five listed levels are the keys of the rank table; any other
      spelling (npm's "critical" or "info", a misspelt threshold) is kept
      as it was written, as `Unlisted`. */
  datatype Level = Off | High | Moderate | Low | All | Unlisted(name: string)

  /** The keys of the rank table. */
  predicate IsTableKey(s: string) {
    s == "off" || s == "high" || s == "moderate" || s == "low" || s == "all"
  }

  /** The string a level stands for. */
  function Name(l: Level): string {
    match l
    case Off => "off"
    case High => "high"
    case Moderate => "moderate"
    case Low => "low"
    case All => "all"
    case Unlisted(n) => n
  }

  /** A level whose `Unlisted` spelling is not also a table key, so that
      each string has one level. */
  predicate WellFormed(l: Level) {
    l.Unlisted? ==> !IsTableKey(l.name)
  }

  /** A level that stands for exactly one severity string: the type of the
      severities a report or a configuration can hold. */
  type SeverityLevel = l: Level | WellFormed(l) witness Off

  /** Reads a severity string: a table key becomes its listed level,
      anything else is unlisted. */
  function ParseLevel(s: string): (l: Level)
    ensures Name(l) == s
    ensures WellFormed(l)
    ensures l.Unlisted? <==> !IsTableKey(s)
  {
    if s == "off" then Off
    else if s == "high" then High
    else if s == "moderate" then Moderate
    else if s == "low" then Low
    else if s == "all" then All
    else Unlisted(s)
  }

  lemma ParseName(l: Level)
    requires WellFormed(l)
    ensures ParseLevel(Name(l)) == l
  {
  }

  /** The rank table: a lower rank is a more severe level; an unlisted
      level has no rank (the table lookup yields `undefined`). */
  function Rank(l: Level): (r: Option<nat>)
    ensures r.Some? <==> !l.Unlisted?
    ensures WellFormed(l) ==> (r.Some? <==> IsTableKey(Name(l)))
    ensures r.Some? ==> r.value <= 4
    ensures r == Some(0) <==> l == Off
    ensures r == Some(4) <==> l == All
  {
    match l
    case Off => Some(0)
    case High => Some(1)
    case Moderate => Some(2)
    case Low => Some(3)
    case All => Some(4)
    case Unlisted(_) => None
  }

  /** The comparison `rank(severity) <= rank(threshold)`. A comparison with
      an undefined rank is false, so an unlisted severity or an unlisted
      threshold admits nothing. */
  function Admits(severity: Level, threshold: Level): (b: bool)
    ensures b ==> Rank(severity).Some? && Rank(threshold).Some?
    ensures threshold == Off ==> (b <==> severity == Off)
    ensures threshold == All ==> (b <==> !severity.Unlisted?)
    ensures threshold == High ==> (b <==> severity == Off || severity == High)
    ensures threshold == Moderate ==> (b <==> severity in {Off, High, Moderate})
    ensures threshold == Low ==> (b <==> severity in {Off, High, Moderate, Low})
  {
    var rs, rt := Rank(severity), Rank(threshold);
    rs.Some? && rt.Some? && rs.value <= rt.value
  }

  /** Raising a threshold never drops a severity it admitted. */
  lemma AdmitsMonotone(severity: Level, lower: Level, higher: Level)
    requires Admits(severity, lower)
    requires Rank(higher).Some? && Rank(lower).value <= Rank(higher).value
    ensures Admits(severity, higher)
  {
  }
}
