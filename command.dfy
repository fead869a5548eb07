/** `buildResolveStatement` and `isDev`: the npm command suggested to
    resolve an action. */
module ResolveCommand {
  import opened Wrappers
  import opened AuditTypes
  import opened Text

  /** The number of resolves with `dev == false` (the length of the
      `filter` in `isDev`). */
  function NonDevCount(rs: seq<Resolve>): (n: nat)
    ensures n <= |rs|
    ensures n == 0 <==> forall i :: 0 <= i < |rs| ==> rs[i].dev
  {
    if rs == [] then 0
    else (if rs[0].dev then 0 else 1) + NonDevCount(rs[1..])
  }

  /** `isDev`: no resolve has `dev == false`, so an empty list is dev. */
  function IsDev(rs: seq<Resolve>): (b: bool)
    ensures b <==> forall i :: 0 <= i < |rs| ==> rs[i].dev
    ensures rs == [] ==> b
  {
    NonDevCount(rs) == 0
  }

  /** The short verb: "i " for install, "up " for update, nothing else. */
  function VerbFlag(action: string): string {
    if action == "install" then "i "
    else if action == "update" then "up "
    else ""
  }

  /** `action.depth` is truthy: present and not zero. */
  predicate HasDepth(depth: Option<int>) {
    depth.Some? && depth.value != 0
  }

  function DepthFlag(depth: Option<int>): string {
    if HasDepth(depth) then "--depth " + IntToDecimal(depth.value) else ""
  }

  function DevFlag(rs: seq<Resolve>): string {
    if IsDev(rs) then "-D " else ""
  }

  /** `buildResolveStatement`: the pieces appended one after the other. */
  function ResolveStatement(a: Action): (s: string)
    ensures |s| > 4 && s[..4] == "npm "
  {
    "npm " + VerbFlag(a.action) + DevFlag(a.resolves) + a.moduleName + "@" + a.target + " "
    + DepthFlag(a.depth)
  }

  datatype Verb = Install | Update | NoVerb

  /** What a statement says: its verb, whether it installs as a dev
      dependency, the package and version, and the depth if any. */
  datatype Command = Command(verb: Verb, dev: bool, moduleName: string, target: string,
                             depth: Option<int>)

  function VerbOf(action: string): Verb {
    if action == "install" then Install
    else if action == "update" then Update
    else NoVerb
  }

  /** The command an action's statement is meant to express. */
  function Intended(a: Action): Command {
    Command(VerbOf(a.action), IsDev(a.resolves), a.moduleName, a.target,
            if HasDepth(a.depth) then a.depth else None)
  }

  /** Reads a statement back from its space-separated words. */
  function ParseStatement(s: string): Option<Command> {
    ParseWords(Split(s, ' '))
  }

  /** The words are "npm", an optional verb, an optional "-D",
      "<module>@<target>" (cut at the last '@', since a scoped module name
      starts with one), then either an empty word (the trailing space) or
      "--depth" and a number. */
  function ParseWords(words: seq<string>): Option<Command> {
    if |words| < 2 || words[0] != "npm" then None
    else
      var verb := if words[1] == "i" then Install else if words[1] == "up" then Update else NoVerb;
      var k := if verb == NoVerb then 1 else 2;
      var dev := k < |words| && words[k] == "-D";
      var m := if dev then k + 1 else k;
      if m >= |words| then None
      else
        match SplitAtLast(words[m], '@')
        case None => None
        case Some(nameTarget) =>
          var rest := words[m + 1..];
          if rest == [""] then Some(Command(verb, dev, nameTarget.0, nameTarget.1, None))
          else if |rest| == 2 && rest[0] == "--depth" then
            match ParseInt(rest[1])
            case None => None
            case Some(d) => Some(Command(verb, dev, nameTarget.0, nameTarget.1, Some(d)))
          else None
  }

  function VerbWords(action: string): seq<string> {
    if action == "install" then ["i"] else if action == "update" then ["up"] else []
  }

  function DevWords(rs: seq<Resolve>): seq<string> {
    if IsDev(rs) then ["-D"] else []
  }

  function DepthWords(depth: Option<int>): seq<string> {
    if HasDepth(depth) then ["--depth", IntToDecimal(depth.value)] else [""]
  }

  /** The words of an action's statement, as `split(" ")` finds them. */
  function Words(a: Action): seq<string> {
    ["npm"] + (VerbWords(a.action) + (DevWords(a.resolves)
    + ([a.moduleName + "@" + a.target] + DepthWords(a.depth))))
  }

  /** An optional word followed by a space, in front of a join. */
  lemma JoinOptional(g: seq<string>, rest: seq<string>)
    requires |g| <= 1 && |rest| >= 1
    ensures Join(g + rest, ' ') == (if g == [] then "" else g[0] + " ") + Join(rest, ' ')
  {
    if g != [] {
      assert g + rest == [g[0]] + rest;
      JoinPrepend(g[0], rest, ' ');
    } else {
      assert g + rest == rest;
    }
  }

  lemma DepthWordsJoin(mt: string, depth: Option<int>)
    ensures Join([mt] + DepthWords(depth), ' ') == mt + " " + DepthFlag(depth)
  {
    JoinPrepend(mt, DepthWords(depth), ' ');
    if HasDepth(depth) {
      JoinPrepend("--depth", [IntToDecimal(depth.value)], ' ');
    }
  }

  lemma StatementIsJoinOfWords(a: Action)
    ensures Join(Words(a), ' ') == ResolveStatement(a)
  {
    var mt := a.moduleName + "@" + a.target;
    var t1 := [mt] + DepthWords(a.depth);
    DepthWordsJoin(mt, a.depth);
    var t2 := DevWords(a.resolves) + t1;
    JoinOptional(DevWords(a.resolves), t1);
    var t3 := VerbWords(a.action) + t2;
    JoinOptional(VerbWords(a.action), t2);
    assert Words(a) == ["npm"] + t3;
    JoinPrepend("npm", t3, ' ');
    var vf, df, dd := VerbFlag(a.action), DevFlag(a.resolves), DepthFlag(a.depth);
    var j1 := Join(t1, ' ');
    var j2 := Join(t2, ' ');
    var j3 := Join(t3, ' ');
    assert j1 == mt + " " + dd;
    assert j2 == df + j1;
    assert j3 == vf + j2;
    assert Join(Words(a), ' ') == "npm" + [' '] + (vf + (df + (mt + " " + dd)));
    Reassociate(vf, df, a.moduleName, a.target, dd);
  }

  lemma Reassociate(vf: string, df: string, m: string, t: string, dd: string)
    ensures "npm" + [' '] + (vf + (df + ((m + "@" + t) + " " + dd)))
            == "npm " + vf + df + m + "@" + t + " " + dd
  {
  }

  /** The parser reads an action's words back as the intended command. */
  lemma ParseWordsOfAction(a: Action)
    requires '@' !in a.target
    ensures ParseWords(Words(a)) == Some(Intended(a))
  {
    var words := Words(a);
    var mt := a.moduleName + "@" + a.target;
    SplitAtLastOf(a.moduleName, '@', a.target);
    assert mt[|a.moduleName|] == '@';
    assert mt != "i" && mt != "up" && mt != "-D" by {
      assert '@' in mt;
    }
    var v, d := VerbWords(a.action), DevWords(a.resolves);
    var k := 1 + |v|;
    var m := k + |d|;
    assert words == ["npm"] + v + d + [mt] + DepthWords(a.depth);
    assert words[0] == "npm";
    assert words[m] == mt;
    assert words[1] == if |v| == 1 then v[0] else if |d| == 1 then d[0] else mt;
    assert words[k] == if |d| == 1 then d[0] else mt;
    assert words[m + 1..] == DepthWords(a.depth);
    var verb := if words[1] == "i" then Install else if words[1] == "up" then Update else NoVerb;
    assert verb == VerbOf(a.action);
    assert (k < |words| && words[k] == "-D") == IsDev(a.resolves);
    if HasDepth(a.depth) {
      DecimalRoundTrip(a.depth.value);
    }
  }

  /** Reading back the statement built for an action recovers what the
      action asks for, provided the module and version hold no space and
      the version holds no '@' (as npm package names and versions do not). */
  lemma ResolveStatementRoundTrip(a: Action)
    requires ' ' !in a.moduleName && ' ' !in a.target && '@' !in a.target
    ensures ParseStatement(ResolveStatement(a)) == Some(Intended(a))
  {
    var words := Words(a);
    if HasDepth(a.depth) {
      DecimalRoundTrip(a.depth.value);
    }
    assert ' ' !in a.moduleName + "@" + a.target;
    assert forall i :: 0 <= i < |words| ==> ' ' !in words[i];
    StatementIsJoinOfWords(a);
    JoinSplit(words, ' ');
    ParseWordsOfAction(a);
  }

  /** The statement for an install of lodash 4.17.21 whose resolves are
      all dev, with no depth, is exactly "npm i -D lodash@4.17.21 ". */
  lemma LodashExample(rs: seq<Resolve>)
    requires forall i :: 0 <= i < |rs| ==> rs[i].dev
    ensures ResolveStatement(Action("install", "lodash", "4.17.21", rs, None)) == "npm i -D lodash@4.17.21 "
  {
  }
}
