/**
 * The refresh as the program runs it, over its own tables: the query built from
 * `agentsRepoName`, and the snapshot merged from the response fragments. The
 * lemmas pin down what the concrete tables imply.
 */
module Pipeline {
  import opened Wrappers
  import opened JsObject
  import opened TailPattern
  import opened Registry
  import opened Query
  import opened Versions

  // ---------------------------------------------------------------- patterns of the table

  /** The distinct pattern texts of `agentsRepoName`. */
  const PatternTexts: set<string> := {
    "v(.*)", "(.*)", "@elastic/apm-rum@(.*)", "opentelemetry-propagator-jaeger/v(.*)",
    "Instrumentation.AspNetCore-(.*)"
  }

  lemma EntryPatternsListed()
    ensures forall i :: 0 <= i < |AgentsRepoNameLiteral| ==>
              var e := AgentsRepoNameLiteral[i].1;
              && (e.regex.Some? ==> e.regex.value in PatternTexts)
              && (e.sdkRegex.Some? ==> e.sdkRegex.value in PatternTexts)
  {
  }

  lemma ParsesVersionPrefix()
    ensures Parse("v(.*)") == Some(Pattern(Literal("v")))
  {
    assert Parse("v(.*)").value.prefix == Literal("v");
  }

  lemma ParsesWholeTag()
    ensures Parse("(.*)") == Some(Pattern([]))
  {
    assert Parse("(.*)").value.prefix == [];
  }

  lemma ParsesRumPattern()
    ensures Parse("@elastic/apm-rum@(.*)").Some?
  {
    var s := "@elastic/apm-rum@(.*)";
    assert |s| == 21 && s[17..] == GroupText;
    assert forall i :: 0 <= i < 17 ==> 'a' <= s[i] <= 'z' || s[i] == '@' || s[i] == '-' || s[i] == '/';
  }

  lemma ParsesRubyPattern()
    ensures Parse("opentelemetry-propagator-jaeger/v(.*)").Some?
  {
    var s := "opentelemetry-propagator-jaeger/v(.*)";
    assert |s| == 37 && s[33..] == GroupText;
    assert forall i :: 0 <= i < 33 ==> 'a' <= s[i] <= 'z' || s[i] == '-' || s[i] == '/';
  }

  /** The `.` of `Instrumentation.AspNetCore-(.*)` is a wildcard. */
  lemma ParsesDotnetPattern()
    ensures Parse("Instrumentation.AspNetCore-(.*)").Some?
    ensures Parse("Instrumentation.AspNetCore-(.*)").value.prefix[15] == Wildcard
  {
    var s := "Instrumentation.AspNetCore-(.*)";
    assert |s| == 31 && s[27..] == GroupText;
    assert forall i :: 0 <= i < 27 ==> 'a' <= s[i] <= 'z' || 'A' <= s[i] <= 'Z' || s[i] == '.' || s[i] == '-';
    assert s[15] == '.';
  }

  /** Every pattern the table holds is in the `L(.*)` form. */
  lemma TablePatternsSupported()
    ensures Supported(AgentsRepoName())
  {
    EntryPatternsListed();
    ParsesVersionPrefix();
    ParsesWholeTag();
    ParsesRumPattern();
    ParsesRubyPattern();
    ParsesDotnetPattern();
    assert forall t :: t in PatternTexts ==> Parse(t).Some?;
    forall k | k in AgentsRepoName().fields
      ensures SupportedEntry(AgentsRepoName().fields[k])
    {
      FromPairsSource(AgentsRepoNameLiteral, k);
    }
  }

  // ---------------------------------------------------------------- the query

  lemma EntriesNameRepositories()
    ensures forall i :: 0 <= i < |AgentsRepoNameLiteral| ==>
              var field := RepositoryField(AgentsRepoNameLiteral[i].1);
              Truthy(field) && field.value != "apm-agent-js"
  {
  }

  /** Every key of the table names a repository, so the query never asks for `undefined`. */
  lemma EveryKeyNamesARepository(agentName: string)
    requires agentName in AgentsRepoName().fields
    ensures GetAgentRepositoryDetails(AgentsRepoName(), agentName).Ok?
    ensures GetAgentRepositoryDetails(AgentsRepoName(), agentName).value.Some?
    ensures GetAgentRepositoryDetails(AgentsRepoName(), agentName).value.value.repository != "apm-agent-js"
  {
    EntriesNameRepositories();
    FromPairsSource(AgentsRepoNameLiteral, agentName);
  }

  lemma RumEntries()
    ensures AgentsRepoNameLiteral[7] == ("js-base", AgentEntry("apm-agent-rum-js", "@elastic/apm-rum@(.*)"))
    ensures AgentsRepoNameLiteral[8] == ("rum-js", AgentEntry("apm-agent-rum-js", "@elastic/apm-rum@(.*)"))
    ensures forall j :: 7 < j < |AgentsRepoNameLiteral| ==> AgentsRepoNameLiteral[j].0 != "js-base"
    ensures forall j :: 8 < j < |AgentsRepoNameLiteral| ==> AgentsRepoNameLiteral[j].0 != "rum-js"
  {
  }

  /** The two agent entries `js-base` and `rum-js` query the same repository. */
  lemma RumRepositoryQueriedTwice()
    ensures GetAgentRepositoryDetails(AgentsRepoName(), "js-base")
            == Ok(Some(RepositoryDetails(ElasticOwner, "apm-agent-rum-js")))
    ensures GetAgentRepositoryDetails(AgentsRepoName(), "rum-js")
            == Ok(Some(RepositoryDetails(ElasticOwner, "apm-agent-rum-js")))
  {
    RumEntries();
    FromPairsLastWins(AgentsRepoNameLiteral, 7);
    FromPairsLastWins(AgentsRepoNameLiteral, 8);
  }

  /** Field `i` of the query of a valid table asks for the repository of key `i`. */
  lemma FieldOfKey(reg: Obj<Entry>, i: nat, user: string, repository: string)
    requires Valid(reg) && i < |reg.keys|
    requires GetAgentRepositoryDetails(reg, reg.keys[i]) == Ok(Some(RepositoryDetails(user, repository)))
    ensures QueryText(reg).Ok?
    ensures var sels := Selections(reg, reg.keys);
            sels.Ok? && sels.value[i] == Selection(Alias(i), user, repository)
  {
    var sels := Selections(reg, reg.keys);
    assert Ok(sels.value[i]) == GenerateSelection(reg, reg.keys[i], i);
  }

  lemma RumKeys()
    ensures |AgentsRepoName().keys| > 8
    ensures AgentsRepoName().keys[7] == "js-base" && AgentsRepoName().keys[8] == "rum-js"
  {
    var o := AgentsRepoName();
    assert |AgentsRepoNameLiteral| > 8;
    assert |o.keys| > 8;
    assert o.keys[7] == AgentsRepoNameLiteral[7].0;
    RumEntries();
    assert AgentsRepoNameLiteral[7].0 == "js-base";
  }

  /**
   * The query of the program's own table is built without a throw, and its fields
   * `repo7` (`js-base`) and `repo8` (`rum-js`) both ask for `elastic/apm-agent-rum-js`.
   */
  lemma RumFieldsShareRepository()
    ensures QueryText(AgentsRepoName()).Ok?
    ensures var sels := Selections(AgentsRepoName(), AgentsRepoName().keys);
            && sels.Ok? && |sels.value| > 8
            && sels.value[7] == Selection(Alias(7), ElasticOwner, "apm-agent-rum-js")
            && sels.value[8] == Selection(Alias(8), ElasticOwner, "apm-agent-rum-js")
  {
    RumKeys();
    RumRepositoryQueriedTwice();
    FieldOfKey(AgentsRepoName(), 7, ElasticOwner, "apm-agent-rum-js");
    FieldOfKey(AgentsRepoName(), 8, ElasticOwner, "apm-agent-rum-js");
  }

  // ---------------------------------------------------------------- display names

  lemma DisplayNameIndices()
    ensures forall i :: 0 <= i < |MappingNamesLiteral| && MappingNamesLiteral[i].1 == "js-base" ==> i == 7
    ensures forall i :: 0 <= i < |MappingNamesLiteral| && MappingNamesLiteral[i].1 == "opentelemetry/nodejs" ==> i == 13
    ensures MappingNamesLiteral[13] == ("opentelemetry-js", "opentelemetry/nodejs")
    ensures MappingNamesLiteral[19] == ("opentelemetry-js", "opentelemetry/webjs")
  {
  }

  /** The literal key `opentelemetry-js` appears twice; the later value wins. */
  lemma DuplicateKeyTakesLastValue()
    ensures AgentKey(MappingNames(), "opentelemetry-js") == "opentelemetry/webjs"
  {
    FromPairsLastWins(MappingNamesLiteral, 19);
  }

  /** No response can be reported under `opentelemetry/nodejs`. */
  lemma NodejsDisplayNameUnreachable(name: string)
    ensures AgentKey(MappingNames(), name) != "opentelemetry/nodejs"
  {
    if name in MappingNames().fields {
      AgentJsEntry();
      DisplayNameIndices();
      FromPairsSource(MappingNamesLiteral, name);
    }
  }

  /** The response of `apm-agent-rum-js` is reported under `rum-js`. */
  lemma RumRepositoryReportsRumJs()
    ensures AgentKey(MappingNames(), "apm-agent-rum-js") == "rum-js"
  {
    FromPairsLastWins(MappingNamesLiteral, 8);
  }

  lemma AgentJsEntry()
    ensures MappingNamesLiteral[7] == ("apm-agent-js", "js-base")
    ensures forall j :: 7 < j < |MappingNamesLiteral| ==> MappingNamesLiteral[j].0 != "apm-agent-js"
  {
  }

  /** The response of `apm-agent-js` is reported under `js-base`. */
  lemma AgentJsReportsJsBase()
    ensures AgentKey(MappingNames(), "apm-agent-js") == "js-base"
  {
    AgentJsEntry();
    FromPairsLastWins(MappingNamesLiteral, 7);
  }

  /** Only a repository named `apm-agent-js` is reported under `js-base`. */
  lemma JsBaseOnlyFromAgentJs(name: string)
    ensures AgentKey(MappingNames(), name) == "js-base" <==> name == "apm-agent-js"
  {
    AgentJsReportsJsBase();
    if name in MappingNames().fields {
      AgentJsEntry();
      DisplayNameIndices();
      FromPairsSource(MappingNamesLiteral, name);
    }
  }

  // ---------------------------------------------------------------- the snapshot

  /** The snapshot `fetchAgentsInfo` builds from the fragments of the response. */
  function Snapshot(frags: seq<Fragment>): (r: Result<Obj<Record>>)
    ensures r.TypeError? <==> exists i :: 0 <= i < |frags| && Throws(frags[i])
    ensures r.Ok? ==> Valid(r.value)
  {
    TablePatternsSupported();
    FetchVersions(MappingNames(), AgentsRepoName(), frags)
  }

  /** Whatever the response holds, no snapshot has the key `opentelemetry/nodejs`. */
  lemma NodejsNeverReported(frags: seq<Fragment>)
    requires Snapshot(frags).Ok?
    ensures "opentelemetry/nodejs" !in Snapshot(frags).value.fields
  {
    TablePatternsSupported();
    if "opentelemetry/nodejs" in Snapshot(frags).value.fields {
      FetchVersionsKeys(MappingNames(), AgentsRepoName(), frags, "opentelemetry/nodejs");
      var i :| 0 <= i < |frags| && Reports(MappingNames(), frags[i], "opentelemetry/nodejs");
      NodejsDisplayNameUnreachable(frags[i].name);
    }
  }


  /** The query field of `agentName` asks for the repository `name`. */
  predicate QueriesRepository(agentName: string, name: string) {
    var details := GetAgentRepositoryDetails(AgentsRepoName(), agentName);
    details.Ok? && details.value.Some? && details.value.value.repository == name
  }

  /** A repository some field of the query asks for; GitHub answers with no other. */
  ghost predicate Queried(name: string) {
    exists agentName :: agentName in AgentsRepoName().fields && QueriesRepository(agentName, name)
  }

  /**
   * Whatever the response holds, no snapshot has the key `js-base`: its only
   * source is a repository named `apm-agent-js`, and no key of the table asks
   * for that repository.
   */
  lemma JsBaseNeverReported(frags: seq<Fragment>)
    requires forall i :: 0 <= i < |frags| && frags[i].Repository? ==> Queried(frags[i].name)
    requires Snapshot(frags).Ok?
    ensures "js-base" !in Snapshot(frags).value.fields
  {
    TablePatternsSupported();
    if "js-base" in Snapshot(frags).value.fields {
      FetchVersionsKeys(MappingNames(), AgentsRepoName(), frags, "js-base");
      var i :| 0 <= i < |frags| && Reports(MappingNames(), frags[i], "js-base");
      JsBaseOnlyFromAgentJs(frags[i].name);
      var agentName :| agentName in AgentsRepoName().fields && QueriesRepository(agentName, frags[i].name);
      EveryKeyNamesARepository(agentName);
    }
  }

  // ---------------------------------------------------------------- worked responses

  lemma VersionTagCaptured()
    ensures Capture(Pattern(Literal("v")), "v2.4.0") == Some("2.4.0")
  {
    var s := "v2.4.0";
    assert MatchesAt(Literal("v"), s, 0);
    CaptureAtStart(Pattern(Literal("v")), s);
    LineEndOfSingleLine(s, 1);
    assert s[1..6] == "2.4.0";
  }

  lemma UnprefixedTagUndefined()
    ensures Capture(Pattern(Literal("v")), "nightly-build") == None
  {
    var s := "nightly-build";
    var v := Literal("v");
    assert |v| == 1 && v[0] == Char('v');
    forall i | 0 <= i <= |s| ensures !MatchesAt(v, s, i) {
      if i < |s| {
        assert s[i] != 'v';
        assert !AtomMatches(v[0], s[i + 0]);
      }
    }
    NoOccurrenceYieldsUndefined(Pattern(v), s);
  }

  lemma GoEntries()
    ensures MappingNamesLiteral[4] == ("apm-agent-go", "go")
    ensures forall j :: 4 < j < |MappingNamesLiteral| ==> MappingNamesLiteral[j].0 != "apm-agent-go"
    ensures MappingNamesLiteral[15] == ("opentelemetry-go", "opentelemetry/go")
    ensures forall j :: 15 < j < |MappingNamesLiteral| ==> MappingNamesLiteral[j].0 != "opentelemetry-go"
    ensures AgentsRepoNameLiteral[4] == ("go", AgentEntry("apm-agent-go", "v(.*)"))
    ensures forall j :: 4 < j < |AgentsRepoNameLiteral| ==> AgentsRepoNameLiteral[j].0 != "go"
    ensures AgentsRepoNameLiteral[16] == ("opentelemetry/go", OtelEntry("opentelemetry-go", "v(.*)", None, None))
    ensures forall j :: 16 < j < |AgentsRepoNameLiteral| ==> AgentsRepoNameLiteral[j].0 != "opentelemetry/go"
  {
  }

  lemma GoKeys()
    ensures AgentKey(MappingNames(), "apm-agent-go") == "go"
    ensures AgentKey(MappingNames(), "opentelemetry-go") == "opentelemetry/go"
  {
    GoEntries();
    FromPairsLastWins(MappingNamesLiteral, 4);
    FromPairsLastWins(MappingNamesLiteral, 15);
  }

  lemma GoPatterns()
    ensures !IsOtel(AgentsRepoName(), "go") && PatternText(AgentsRepoName(), "go") == Some("v(.*)")
    ensures IsOtel(AgentsRepoName(), "opentelemetry/go")
            && PatternText(AgentsRepoName(), "opentelemetry/go") == Some("v(.*)")
  {
    GoEntries();
    FromPairsLastWins(AgentsRepoNameLiteral, 4);
    FromPairsLastWins(AgentsRepoNameLiteral, 16);
  }

  /**
   * A key whose pattern is `v(.*)` turns the release `v2.4.0` of its repository into
   * the version `2.4.0`, in both fields of an OpenTelemetry record.
   */
  lemma ReleaseV240(mapping: Obj<string>, reg: Obj<Entry>, name: string, key: string)
    requires Supported(reg)
    requires AgentKey(mapping, name) == key
    requires PatternText(reg, key) == Some("v(.*)")
    ensures ExtractLastVersion(mapping, reg, Repository(name, ["v2.4.0"]))
            == Ok((key, if IsOtel(reg, key) then OtelRecord(Some("2.4.0"), Some("2.4.0")) else AgentRecord(Some("2.4.0"))))
  {
    ParsesVersionPrefix();
    VersionTagCaptured();
  }

  /** A release `v2.4.0` of the Go agent gives `{ go: { latest_version: "2.4.0" } }`. */
  lemma GoAgentSnapshot()
    ensures Snapshot([Repository("apm-agent-go", ["v2.4.0"])])
            == Ok(Obj(["go"], map["go" := AgentRecord(Some("2.4.0"))]))
  {
    TablePatternsSupported();
    GoKeys();
    GoPatterns();
    ReleaseV240(MappingNames(), AgentsRepoName(), "apm-agent-go", "go");
    SingleFragment(MappingNames(), AgentsRepoName(), Repository("apm-agent-go", ["v2.4.0"]));
  }

  /**
   * A release `v2.4.0` of OpenTelemetry Go gives the record of an OpenTelemetry
   * project, with the same version in both fields.
   */
  lemma OtelGoSnapshot()
    ensures Snapshot([Repository("opentelemetry-go", ["v2.4.0"])])
            == Ok(Obj(["opentelemetry/go"], map["opentelemetry/go" := OtelRecord(Some("2.4.0"), Some("2.4.0"))]))
  {
    TablePatternsSupported();
    GoKeys();
    GoPatterns();
    ReleaseV240(MappingNames(), AgentsRepoName(), "opentelemetry-go", "opentelemetry/go");
    SingleFragment(MappingNames(), AgentsRepoName(), Repository("opentelemetry-go", ["v2.4.0"]));
  }

  /** A tag the pattern does not match leaves the version `undefined`. */
  lemma UnmatchedTagSnapshot()
    ensures Snapshot([Repository("apm-agent-go", ["nightly-build"])])
            == Ok(Obj(["go"], map["go" := AgentRecord(None)]))
  {
    TablePatternsSupported();
    GoKeys();
    GoPatterns();
    ParsesVersionPrefix();
    UnprefixedTagUndefined();
    var frag := Repository("apm-agent-go", ["nightly-build"]);
    assert ExtractLastVersion(MappingNames(), AgentsRepoName(), frag) == Ok(("go", AgentRecord(None)));
    SingleFragment(MappingNames(), AgentsRepoName(), frag);
  }

  /** A repository without releases makes the whole refresh throw. */
  lemma NoReleasesThrows(name: string, frags: seq<Fragment>)
    ensures Snapshot(frags + [Repository(name, [])]).TypeError?
  {
    TablePatternsSupported();
    var all := frags + [Repository(name, [])];
    assert Throws(all[|frags|]);
  }

}
