/** The stage-two tool of `depgraph2.py`: the direct dependencies of one
    package, taken from the fixture table or from a Maven repository and passed
    through the substring filter. Unlike the stage-three engine, a bad package
    name or a failing download is an error the caller sees. */
module DepGraph2 {
  import opened Wrappers
  import opened Dependencies
  import opened Maven
  import opened Fixtures
  import opened Text

  /** The part of `self.config` that `get_dependencies` reads. */
  datatype Config = Config(packageName: string, filterSubstring: Option<string>, mode: Mode)

  /** The exceptions that escape `get_dependencies`. */
  datatype Error = BadPackageName | SourceFailed

  /** The unfiltered list of the configured source; `None` when the download
      or the POM parse raises. The test fixture never fails and never
      answers with an empty list. */
  function SourceDependencies(mode: Mode, net: Network, groupId: string, artifactId: string): (r: Option<seq<Dep>>)
    ensures mode.Test? ==> r.Some? && |r.value| > 0
  {
    match mode
    case Test =>
      TestDependencies2NonEmpty(groupId, artifactId);
      Some(TestDependencies2(groupId, artifactId))
    case Remote(url) => FetchRemote(url, net, groupId, artifactId, "latest")
  }

  /** `get_dependencies`: raises on a name that does not split into exactly
      two parts, propagates a source failure, and filters a successful list. */
  function GetDependencies(config: Config, net: Network): (r: Result<seq<Dep>, Error>)
    ensures r == Err(BadPackageName) <==> ParseCoordinate(config.packageName).None?
  {
    match ParseCoordinate(config.packageName)
    case None => Err(BadPackageName)
    case Some((g, a)) =>
      match SourceDependencies(config.mode, net, g, a)
      case None => Err(SourceFailed)
      case Some(deps) => Ok(Filtered(deps, config.filterSubstring))
  }

  /** A name with exactly one colon is accepted, and any other raises. */
  lemma BadNameRaises(config: Config, net: Network)
    ensures GetDependencies(config, net) == Err(BadPackageName) <==> Count(config.packageName, ':') != 1
  {
    ParseCoordinateIff(config.packageName);
  }

  /** A result exists exactly when the name parses and the source answers;
      it is then an order-preserving subsequence of the source's list, equal
      to it without a filter and holding exactly the matching records, each as
      often as in the source, with one. */
  lemma GetDependenciesSpec(config: Config, net: Network)
    ensures var r := GetDependencies(config, net);
            var c := ParseCoordinate(config.packageName);
            r.Ok? <==> c.Some? && SourceDependencies(config.mode, net, c.value.0, c.value.1).Some?
    ensures var r := GetDependencies(config, net);
            var c := ParseCoordinate(config.packageName);
            r.Ok? ==>
              var raw := SourceDependencies(config.mode, net, c.value.0, c.value.1).value;
              Subsequence(r.value, raw) &&
              (NoFilter(config.filterSubstring) ==> r.value == raw) &&
              (!NoFilter(config.filterSubstring) ==>
                 (forall d :: d in r.value <==> d in raw && Matches(d, config.filterSubstring.value)) &&
                 forall d :: multiset(r.value)[d] ==
                   if Matches(d, config.filterSubstring.value) then multiset(raw)[d] else 0)
  {
    var c := ParseCoordinate(config.packageName);
    if c.Some? {
      var src := SourceDependencies(config.mode, net, c.value.0, c.value.1);
      if src.Some? {
        FilterSpec(src.value, config.filterSubstring);
      }
    }
  }

  /** In test mode a well-formed name always gets an answer, and without a
      filter that answer is the fixture list of the key, never empty. */
  lemma TestModeAnswers(config: Config, net: Network)
    requires config.mode.Test? && ParseCoordinate(config.packageName).Some?
    ensures GetDependencies(config, net).Ok?
    ensures NoFilter(config.filterSubstring) ==>
              var (g, a) := ParseCoordinate(config.packageName).value;
              GetDependencies(config, net).value == TestDependencies2(g, a) &&
              |GetDependencies(config, net).value| > 0
  {
    var (g, a) := ParseCoordinate(config.packageName).value;
    TestDependencies2NonEmpty(g, a);
  }

  /** Filtering the result of `get_dependencies` once more changes nothing. */
  lemma GetDependenciesFilterStable(config: Config, net: Network)
    requires GetDependencies(config, net).Ok?
    ensures var deps := GetDependencies(config, net).value;
            Filtered(deps, config.filterSubstring) == deps
  {
    var c := ParseCoordinate(config.packageName);
    var raw := SourceDependencies(config.mode, net, c.value.0, c.value.1).value;
    FilterIdempotent(raw, config.filterSubstring);
  }
}
