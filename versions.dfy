/**
 * Turning the `data` fragments of the GraphQL response into the snapshot of
 * latest versions: `extractLastVersion` for one fragment, and the `reduce` in
 * `fetchAgentsInfo` that merges the per-repository records.
 */
module Versions {
  import opened Wrappers
  import opened JsObject
  import opened TailPattern
  import opened Registry

  /**
   * One value of the response's `data` object: `null` when the repository could
   * not be resolved, otherwise its `name` and the `tagName` of each node of
   * `releases.nodes`.
   */
  datatype Fragment = Missing | Repository(name: string, tagNames: seq<string>)

  /**
   * The record stored under a display name: `{ latest_version }` for an agent,
   * `{ sdk_latest_version, auto_latest_version }` for an OpenTelemetry project;
   * `None` is `undefined`.
   */
  datatype Record =
    | AgentRecord(latestVersion: Option<string>)
    | OtelRecord(sdkLatestVersion: Option<string>, autoLatestVersion: Option<string>)

  /** The regular expression built by `new RegExp(regexPattern)`. */
  datatype Regex =
    | NoGroup            // `new RegExp(undefined)`: the empty pattern, which matches and has no group 1
    | Tail(p: Pattern)   // `L(.*)`

  /** Every pattern text the extraction can read from the table lies in the `L(.*)` form. */
  ghost predicate Supported(reg: Obj<Entry>) {
    forall k :: k in reg.fields ==> SupportedEntry(reg.fields[k])
  }

  predicate SupportedEntry(e: Entry) {
    && (e.regex.Some? ==> Parse(e.regex.value).Some?)
    && (e.sdkRegex.Some? ==> Parse(e.sdkRegex.value).Some?)
  }

  /** `mappingNames[name]` used as a property key: `undefined` becomes the key `"undefined"`. */
  function AgentKey(mapping: Obj<string>, name: string): (k: string)
    ensures name in mapping.fields ==> k == mapping.fields[name]
    ensures name !in mapping.fields ==> k == "undefined"
  {
    match Get(mapping, name)
    case Some(agentName) => agentName
    case None => "undefined"
  }

  /** `agentsRepoName[agentName]?.isotel`. */
  predicate IsOtel(reg: Obj<Entry>, agentName: string) {
    agentName in reg.fields && reg.fields[agentName].isotel
  }

  /** The pattern text read for a display name: `sdk_regex` for OpenTelemetry, `regex` otherwise. */
  function PatternText(reg: Obj<Entry>, agentName: string): Option<string> {
    if agentName !in reg.fields then None
    else if IsOtel(reg, agentName) then reg.fields[agentName].sdkRegex
    else reg.fields[agentName].regex
  }

  function Compile(text: Option<string>): (r: Regex)
    requires text.Some? ==> Parse(text.value).Some?
    ensures r.Tail? <==> text.Some?
    ensures r.Tail? ==> WellFormed(r.p) && Render(r.p) == text.value
  {
    match text
    case None => NoGroup
    case Some(t) =>
      ParseSound(t);
      Tail(Parse(t).value)
  }

  /**
   * A well-formed pattern that renders as the text is the compiled one: the
   * contract of `Compile` leaves no other choice (a literal `.` and a wildcard
   * render alike, but only the wildcard is well formed).
   */
  lemma CompileDetermined(t: string, p: Pattern)
    requires WellFormed(p) && Render(p) == t
    ensures Parse(t).Some? && Compile(Some(t)) == Tail(p)
  {
    ParseRender(p);
  }

  /**
   * `value.match(regex)?.[1]`: `undefined` without a group or without a match,
   * otherwise the rest of a line.
   */
  function Group1(regex: Regex, value: string): (g: Option<string>)
    ensures g.None? <==> regex.NoGroup? || forall i :: 0 <= i <= |value| ==> !MatchesAt(regex.p.prefix, value, i)
    ensures g.Some? ==> forall j :: 0 <= j < |g.value| ==> !IsLineTerminator(g.value[j])
    ensures regex.Tail? ==> g == Capture(regex.p, value)
  {
    match regex
    case NoGroup => None
    case Tail(p) => Capture(p, value)
  }

  /** The version a record reports (both fields of an OpenTelemetry record hold it). */
  function Version(rec: Record): Option<string> {
    match rec
    case AgentRecord(v) => v
    case OtelRecord(v, _) => v
  }

  /** Whether a fragment makes `extractLastVersion` throw. */
  predicate Throws(frag: Fragment) {
    frag.Missing? || |frag.tagNames| == 0
  }

  /**
   * `extractLastVersion(agentInfo)`: the display name `mappingNames[name]` and its
   * record, built from the first release's tag. Reading a property of a `null`
   * fragment, or calling `.match` on the tag of a repository without releases, throws.
   */
  function ExtractLastVersion(mapping: Obj<string>, reg: Obj<Entry>, frag: Fragment): (r: Result<(string, Record)>)
    requires Supported(reg)
    ensures r.TypeError? <==> Throws(frag)
    ensures r.Ok? ==> r.value.0 == AgentKey(mapping, frag.name)
    ensures r.Ok? ==> (r.value.1.OtelRecord? <==> IsOtel(reg, r.value.0))
    ensures r.Ok? && r.value.1.OtelRecord? ==> r.value.1.sdkLatestVersion == r.value.1.autoLatestVersion
    ensures r.Ok? ==>
              var text := PatternText(reg, r.value.0);
              var version := Version(r.value.1);
              && (text.None? ==> version.None?)
              && (text.Some? ==> Render(Parse(text.value).value) == text.value
                                 && version == Capture(Parse(text.value).value, frag.tagNames[0]))
  {
    match frag
    case Missing => TypeError
    case Repository(name, tagNames) =>
      var agentName := AgentKey(mapping, name);
      var isOtel := IsOtel(reg, agentName);
      assert agentName in reg.fields ==> SupportedEntry(reg.fields[agentName]);
      var regex := Compile(PatternText(reg, agentName));
      if tagNames == [] then TypeError
      else
        var regexMatch := Group1(regex, tagNames[0]);
        Ok((agentName, if isOtel then OtelRecord(regexMatch, regexMatch) else AgentRecord(regexMatch)))
  }

  /** Whether a fragment is the response of a repository whose display name is `k`. */
  predicate Reports(mapping: Obj<string>, frag: Fragment, k: string) {
    frag.Repository? && AgentKey(mapping, frag.name) == k
  }

  /**
   * `Object.values(data).reduce((acc, curr) => ({...acc, ...extractLastVersion(curr)}), {})`:
   * a left fold that spreads each fragment's one-key object over the accumulated
   * object, which is the property write `Put` (`JsObject.SpreadSingleton`). A
   * throwing fragment makes the whole fold throw.
   */
  function FetchVersions(mapping: Obj<string>, reg: Obj<Entry>, frags: seq<Fragment>): (r: Result<Obj<Record>>)
    requires Supported(reg)
    ensures r.TypeError? <==> exists i :: 0 <= i < |frags| && Throws(frags[i])
    ensures r.Ok? ==> Valid(r.value)
    decreases |frags|
  {
    if frags == [] then Ok(Empty())
    else
      var n := |frags| - 1;
      var prefix := frags[..n];
      assert forall i :: 0 <= i < n ==> prefix[i] == frags[i];
      match FetchVersions(mapping, reg, prefix)
      case TypeError => TypeError
      case Ok(acc) =>
        match ExtractLastVersion(mapping, reg, frags[n])
        case TypeError => TypeError
        case Ok(kv) => Ok(Put(acc, kv.0, kv.1))
  }

  /** One step of the fold: the new fragment's record is set, every other key is kept. */
  lemma FetchVersionsStep(mapping: Obj<string>, reg: Obj<Entry>, frags: seq<Fragment>)
    requires Supported(reg)
    requires frags != [] && FetchVersions(mapping, reg, frags).Ok?
    ensures var n := |frags| - 1;
            && FetchVersions(mapping, reg, frags[..n]).Ok?
            && ExtractLastVersion(mapping, reg, frags[n]).Ok?
            && var acc := FetchVersions(mapping, reg, frags[..n]).value;
               var kv := ExtractLastVersion(mapping, reg, frags[n]).value;
               FetchVersions(mapping, reg, frags).value.fields == acc.fields[kv.0 := kv.1]
  {
    var n := |frags| - 1;
    var kv := ExtractLastVersion(mapping, reg, frags[n]).value;
  }

  /** The snapshot holds exactly the display names of the fragments. */
  lemma {:induction false} FetchVersionsKeys(mapping: Obj<string>, reg: Obj<Entry>, frags: seq<Fragment>, k: string)
    requires Supported(reg)
    requires FetchVersions(mapping, reg, frags).Ok?
    ensures k in FetchVersions(mapping, reg, frags).value.fields <==>
            exists i :: 0 <= i < |frags| && Reports(mapping, frags[i], k)
    decreases |frags|
  {
    var whole := FetchVersions(mapping, reg, frags).value;
    if frags == [] {
      assert whole.fields == map[];
    } else {
      var n := |frags| - 1;
      var prefix := frags[..n];
      FetchVersionsStep(mapping, reg, frags);
      var acc := FetchVersions(mapping, reg, prefix).value;
      var kv := ExtractLastVersion(mapping, reg, frags[n]).value;
      assert whole.fields == acc.fields[kv.0 := kv.1];
      assert Reports(mapping, frags[n], kv.0);
      FetchVersionsKeys(mapping, reg, prefix, k);
      if k in whole.fields && k != kv.0 {
        var i :| 0 <= i < n && Reports(mapping, prefix[i], k);
        assert prefix[i] == frags[i];
      }
      if i :| 0 <= i < |frags| && Reports(mapping, frags[i], k) {
        if i < n {
          assert prefix[i] == frags[i];
          assert Reports(mapping, prefix[i], k);
        }
      }
    }
  }

  /** The position of the last fragment that reports display name `k`, or -1 when none does. */
  function LastReporter(mapping: Obj<string>, frags: seq<Fragment>, k: string): (i: int)
    ensures -1 <= i < |frags|
    ensures i >= 0 ==> Reports(mapping, frags[i], k)
    ensures forall j :: i < j < |frags| ==> !Reports(mapping, frags[j], k)
    decreases |frags|
  {
    if frags == [] then -1
    else if Reports(mapping, frags[|frags| - 1], k) then |frags| - 1
    else LastReporter(mapping, frags[..|frags| - 1], k)
  }

  /**
   * Later records overwrite earlier ones: the record under a display name is the
   * one extracted from the last fragment that reports that name.
   */
  lemma {:induction false} FetchVersionsLastWins(mapping: Obj<string>, reg: Obj<Entry>, frags: seq<Fragment>, k: string)
    requires Supported(reg)
    requires FetchVersions(mapping, reg, frags).Ok?
    requires k in FetchVersions(mapping, reg, frags).value.fields
    ensures var i := LastReporter(mapping, frags, k);
            && 0 <= i
            && ExtractLastVersion(mapping, reg, frags[i]) == Ok((k, FetchVersions(mapping, reg, frags).value.fields[k]))
    decreases |frags|
  {
    var whole := FetchVersions(mapping, reg, frags).value;
    assert frags != [];
    var n := |frags| - 1;
    var prefix := frags[..n];
    FetchVersionsStep(mapping, reg, frags);
    var acc := FetchVersions(mapping, reg, prefix).value;
    var kv := ExtractLastVersion(mapping, reg, frags[n]).value;
    assert whole.fields == acc.fields[kv.0 := kv.1];
    if kv.0 != k {
      assert !Reports(mapping, frags[n], k);
      assert LastReporter(mapping, frags, k) == LastReporter(mapping, prefix, k);
      FetchVersionsLastWins(mapping, reg, prefix, k);
      assert prefix[LastReporter(mapping, prefix, k)] == frags[LastReporter(mapping, prefix, k)];
    }
  }


  /** A response of one fragment gives an object with that fragment's one record. */
  lemma SingleFragment(mapping: Obj<string>, reg: Obj<Entry>, frag: Fragment)
    requires Supported(reg)
    requires ExtractLastVersion(mapping, reg, frag).Ok?
    ensures var kv := ExtractLastVersion(mapping, reg, frag).value;
            FetchVersions(mapping, reg, [frag]) == Ok(Obj([kv.0], map[kv.0 := kv.1]))
  {
    var kv := ExtractLastVersion(mapping, reg, frag).value;
    assert [frag][..0] == [];
    var start: Obj<Record> := Empty();
    assert FetchVersions(mapping, reg, [frag]) == Ok(Put(start, kv.0, kv.1));
    var r := Put(start, kv.0, kv.1);
    assert r.keys == [] + [kv.0] == [kv.0];
    assert r.fields == map[kv.0 := kv.1];
    assert r == Obj([kv.0], map[kv.0 := kv.1]);
  }

}
