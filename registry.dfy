/**
 * The static tables of tracked projects and the lookup of the repository that is
 * queried for each of them.
 */
module Registry {
  import opened Wrappers
  import opened JsObject

  /**
   * One value of `agentsRepoName`. An agent entry sets `repo` and `regex`; an
   * OpenTelemetry entry sets `isotel` and `sdk_repo`, `sdk_regex`, and optionally
   * `auto_repo` and `auto_regex`. A property the literal does not set is `None`.
   */
  datatype Entry = Entry(
    isotel: bool,
    repo: Option<string>,
    regex: Option<string>,
    sdkRepo: Option<string>,
    sdkRegex: Option<string>,
    autoRepo: Option<string>,
    autoRegex: Option<string>)

  function AgentEntry(repo: string, regex: string): Entry {
    Entry(false, Some(repo), Some(regex), None, None, None, None)
  }

  function OtelEntry(sdkRepo: string, sdkRegex: string, autoRepo: Option<string>, autoRegex: Option<string>): Entry {
    Entry(true, None, None, Some(sdkRepo), Some(sdkRegex), autoRepo, autoRegex)
  }

  /** The object literal `mappingNames`: repository name to display name. */
  const MappingNamesLiteral: seq<(string, string)> := [
    ("apm-agent-java", "java"),
    ("apm-agent-dotnet", "dotnet"),
    ("apm-agent-nodejs", "nodejs"),
    ("apm-agent-python", "python"),
    ("apm-agent-go", "go"),
    ("apm-agent-php", "php"),
    ("apm-agent-ios", "iOS/swift"),
    ("apm-agent-js", "js-base"),
    ("apm-agent-rum-js", "rum-js"),
    ("apm-agent-ruby", "ruby"),
    ("apm-agent-android", "android/java"),
    ("opentelemetry-java", "opentelemetry/java"),
    ("opentelemetry-dotnet", "opentelemetry/dotnet"),
    ("opentelemetry-js", "opentelemetry/nodejs"),
    ("opentelemetry-python", "opentelemetry/python"),
    ("opentelemetry-go", "opentelemetry/go"),
    ("opentelemetry-php", "opentelemetry/php"),
    ("opentelemetry-swift", "opentelemetry/swift"),
    ("opentelemetry-cpp", "opentelemetry/cpp"),
    ("opentelemetry-js", "opentelemetry/webjs"),
    ("opentelemetry-ruby", "opentelemetry/ruby"),
    ("opentelemetry-erlang", "opentelemetry/erlang")
  ]

  /** The object literal `agentsRepoName`: display name to entry. */
  const AgentsRepoNameLiteral: seq<(string, Entry)> := [
    ("java", AgentEntry("apm-agent-java", "v(.*)")),
    ("dotnet", AgentEntry("apm-agent-dotnet", "v(.*)")),
    ("nodejs", AgentEntry("apm-agent-nodejs", "v(.*)")),
    ("python", AgentEntry("apm-agent-python", "v(.*)")),
    ("go", AgentEntry("apm-agent-go", "v(.*)")),
    ("php", AgentEntry("apm-agent-php", "v(.*)")),
    ("iOS/swift", AgentEntry("apm-agent-ios", "v(.*)")),
    ("js-base", AgentEntry("apm-agent-rum-js", "@elastic/apm-rum@(.*)")),
    ("rum-js", AgentEntry("apm-agent-rum-js", "@elastic/apm-rum@(.*)")),
    ("ruby", AgentEntry("apm-agent-ruby", "v(.*)")),
    ("android/java", AgentEntry("apm-agent-android", "v(.*)")),
    ("opentelemetry/java", OtelEntry("opentelemetry-java", "v(.*)",
                                     Some("opentelemetry-java-instrumentation"), Some("v(.*)"))),
    ("opentelemetry/dotnet", OtelEntry("opentelemetry-dotnet", "Instrumentation.AspNetCore-(.*)",
                                       Some("opentelemetry-dotnet-instrumentation"), Some("v(.*)"))),
    ("opentelemetry/nodejs", OtelEntry("opentelemetry-js", "v(.*)", None, None)),
    ("opentelemetry/python", OtelEntry("opentelemetry-python", "v(.*)", None, None)),
    ("opentelemetry/ruby", OtelEntry("opentelemetry-ruby", "opentelemetry-propagator-jaeger/v(.*)", None, None)),
    ("opentelemetry/go", OtelEntry("opentelemetry-go", "v(.*)", None, None)),
    ("opentelemetry/php", OtelEntry("opentelemetry-php", "(.*)",
                                    Some("opentelemetry-php-instrumentation"), Some("(.*)"))),
    ("opentelemetry/cpp", OtelEntry("opentelemetry-cpp", "v(.*)", None, None)),
    ("opentelemetry/erlang", OtelEntry("opentelemetry-erlang", "v(.*)", None, None)),
    ("opentelemetry/swift", OtelEntry("opentelemetry-swift", "(.*)", None, None)),
    ("opentelemetry/webjs", OtelEntry("opentelemetry-js", "v(.*)", None, None))
  ]

  /** The keys of `agentsRepoName` are written once each. */
  lemma AgentsRepoNameKeysDistinct()
    ensures forall i, j :: 0 <= i < j < |AgentsRepoNameLiteral| ==>
              AgentsRepoNameLiteral[i].0 != AgentsRepoNameLiteral[j].0
  {
  }

  /** For each pair of `mappingNames`, the position of its display name among the keys of `agentsRepoName`. */
  const DisplayEntry: seq<nat> := [0, 1, 2, 3, 4, 5, 6, 7, 8, 9, 10, 11, 12, 13, 14, 16, 17, 20, 18, 21, 15, 19]

  /** No key or display name of `mappingNames` is an array index. */
  lemma MappingNamesNotIndices()
    ensures forall i :: 0 <= i < |MappingNamesLiteral| ==>
              !DigitsOnly(MappingNamesLiteral[i].0) && !DigitsOnly(MappingNamesLiteral[i].1)
  {
    forall i | 0 <= i < |MappingNamesLiteral|
      ensures !DigitsOnly(MappingNamesLiteral[i].0) && !DigitsOnly(MappingNamesLiteral[i].1)
    {
      assert 'a' <= MappingNamesLiteral[i].0[0] <= 'z' && 'a' <= MappingNamesLiteral[i].1[0] <= 'z';
    }
  }

  /** No key of `agentsRepoName` is an array index. */
  lemma AgentsRepoNameNotIndices()
    ensures forall i :: 0 <= i < |AgentsRepoNameLiteral| ==> !DigitsOnly(AgentsRepoNameLiteral[i].0)
  {
    forall i | 0 <= i < |AgentsRepoNameLiteral| ensures !DigitsOnly(AgentsRepoNameLiteral[i].0) {
      assert !('0' <= AgentsRepoNameLiteral[i].0[0] <= '9');
    }
  }

  lemma DisplayNamesAreEntries()
    ensures |DisplayEntry| == |MappingNamesLiteral|
    ensures forall i :: 0 <= i < |MappingNamesLiteral| ==>
              DisplayEntry[i] < |AgentsRepoNameLiteral| && MappingNamesLiteral[i].1 == AgentsRepoNameLiteral[DisplayEntry[i]].0
  {
    DisplayNamesFront();
    DisplayNamesBack();
  }

  lemma DisplayNamesFront()
    ensures forall i :: 0 <= i < 11 ==>
              MappingNamesLiteral[i].1 == AgentsRepoNameLiteral[DisplayEntry[i]].0
  {
  }

  lemma DisplayNamesBack()
    ensures forall i :: 11 <= i < 22 ==>
              DisplayEntry[i] < |AgentsRepoNameLiteral| && MappingNamesLiteral[i].1 == AgentsRepoNameLiteral[DisplayEntry[i]].0
  {
  }

  /**
   * The evaluated `mappingNames`: every display name it yields is a key of
   * `agentsRepoName`, so a known repository always finds its entry.
   */
  function MappingNames(): (o: Obj<string>)
    ensures Valid(o)
    ensures forall k :: k in o.fields ==> o.fields[k] in AgentsRepoName().fields
  {
    DisplayNamesAreEntries();
    ValuesNameKeys(MappingNamesLiteral, AgentsRepoNameLiteral, DisplayEntry);
    FromPairs(MappingNamesLiteral)
  }

  /**
   * The evaluated `agentsRepoName`: its keys are those of the literal, in the order
   * written, since none repeats.
   */
  function AgentsRepoName(): (o: Obj<Entry>)
    ensures Valid(o)
    ensures |o.keys| == |AgentsRepoNameLiteral|
    ensures forall i {:trigger o.keys[i]} :: 0 <= i < |AgentsRepoNameLiteral| ==> o.keys[i] == AgentsRepoNameLiteral[i].0
  {
    AgentsRepoNameKeysDistinct();
    FromPairsDistinctKeys(AgentsRepoNameLiteral);
    FromPairs(AgentsRepoNameLiteral)
  }

  const OtelOwner: string := "open-telemetry"
  const ElasticOwner: string := "elastic"

  datatype RepositoryDetails = RepositoryDetails(user: string, repository: string)

  /** JavaScript truthiness of a string that may be `undefined`: the empty string is falsy. */
  predicate Truthy(v: Option<string>) {
    v.Some? && v.value != ""
  }

  /** The repository property read for an entry: `sdk_repo` for OpenTelemetry, `repo` otherwise. */
  function RepositoryField(e: Entry): Option<string> {
    if e.isotel then e.sdkRepo else e.repo
  }

  /**
   * `getAgentRepositoryDetails(agentName)`: reading `.isotel` of a name the table
   * does not hold throws; a missing or empty repository property gives `undefined`.
   */
  function GetAgentRepositoryDetails(reg: Obj<Entry>, agentName: string): (r: Result<Option<RepositoryDetails>>)
    ensures r.TypeError? <==> agentName !in reg.fields
    ensures r.Ok? ==> (r.value.Some? <==> Truthy(RepositoryField(reg.fields[agentName])))
    ensures r.Ok? && r.value.Some? ==>
              var e, d := reg.fields[agentName], r.value.value;
              && (d.user == OtelOwner <==> e.isotel)
              && (d.user == ElasticOwner <==> !e.isotel)
              && d.repository == RepositoryField(e).value
  {
    match Get(reg, agentName)
    case None => TypeError
    case Some(e) =>
      var user := if e.isotel then OtelOwner else ElasticOwner;
      var repository := if user == OtelOwner then e.sdkRepo else e.repo;
      if !Truthy(repository) then Ok(None)
      else Ok(Some(RepositoryDetails(user, repository.value)))
  }

}
