/**
 * The GraphQL query sent for a refresh: one aliased `repository` field per key of
 * the registry (field aliases, section 2.7 of the GraphQL specification, October
 * 2021), each asking for the repository's name and the tag name of its latest
 * release only.
 */
module Query {
  import opened Wrappers
  import opened JsObject
  import opened Decimal
  import opened Registry

  /** One aliased field `alias: repository(owner: "owner", name: "name") { ... }`. */
  datatype Selection = Selection(alias: string, owner: string, name: string)

  /** The alias of the field at position `index`. */
  function Alias(index: nat): string {
    "repo" + NatToString(index)
  }

  /** Aliases of distinct positions differ, so no two fields of the query collide. */
  lemma AliasInjective(i: nat, j: nat)
    ensures Alias(i) == Alias(j) ==> i == j
  {
    if Alias(i) == Alias(j) {
      assert NatToString(i) == Alias(i)[4..];
      assert NatToString(j) == Alias(j)[4..];
      NatToStringInjective(i, j);
    }
  }

  /** `${v}` in a template literal for a string that may be `undefined`. */
  function Interpolate(v: Option<string>): (t: string)
    ensures v.Some? ==> t == v.value
    ensures v.None? ==> t == "undefined"
  {
    match v
    case Some(s) => s
    case None => "undefined"
  }

  /**
   * The field `generateQuery(agentName, index)` writes: the owner and name are the
   * repository details, or the text `undefined` when the entry has no repository.
   */
  function GenerateSelection(reg: Obj<Entry>, agentName: string, index: nat): (r: Result<Selection>)
    ensures r.TypeError? <==> agentName !in reg.fields
    ensures r.Ok? ==> r.value.alias == Alias(index)
    ensures r.Ok? ==> var d := GetAgentRepositoryDetails(reg, agentName).value;
              && (d.Some? ==> r.value.owner == d.value.user && r.value.name == d.value.repository)
              && (d.None? ==> r.value.owner == "undefined" && r.value.name == "undefined")
  {
    match GetAgentRepositoryDetails(reg, agentName)
    case TypeError => TypeError
    case Ok(d) =>
      var user := if d.Some? then Some(d.value.user) else None;
      var repository := if d.Some? then Some(d.value.repository) else None;
      Ok(Selection(Alias(index), Interpolate(user), Interpolate(repository)))
  }

  /** The selection set of every field: the name and the first release's tag name. */
  const ReleaseSelectionSet: string :=
    "{\n      name\n      releases(first: 1) {\n        nodes {\n          tagName\n        }\n      }\n    }\n  "

  /** The text between the alias and the owner, and between the owner and the name. */
  const OwnerOpen: string := " repository(owner: \""
  const NameOpen: string := "\", name: \""

  /** Where each of five concatenated strings lies in the whole. */
  lemma FiveParts(a: string, b: string, c: string, d: string, e: string)
    ensures var x := a + (b + (c + (d + e)));
            && x[..|a|] == a
            && x[|a|..|a| + |b|] == b
            && x[|a| + |b|..|a| + |b| + |c|] == c
            && x[|a| + |b| + |c|..|a| + |b| + |c| + |d|] == d
            && x[|a| + |b| + |c| + |d|..] == e
  {
    var x := a + (b + (c + (d + e)));
    assert x[|a|..] == b + (c + (d + e));
    assert x[|a| + |b|..] == c + (d + e);
    assert x[|a| + |b| + |c|..] == d + e;
  }

  /** The field up to the closing quote of the name: alias, owner and name. */
  function FieldFront(sel: Selection): string {
    ("\n    " + sel.alias + ":") + (OwnerOpen + (sel.owner + (NameOpen + sel.name)))
  }

  /** `t` ends with `s`. */
  predicate EndsWith(t: string, s: string) {
    |t| >= |s| && t[|t| - |s|..] == s
  }

  /** A field whose selection set, after the closing `) `, is `rest`. */
  function Field(sel: Selection, rest: string): (text: string)
    ensures |text| >= 5 + |sel.alias| + 1
    ensures text[..5 + |sel.alias| + 1] == "\n    " + sel.alias + ":"
    ensures FieldFront(sel) <= text
    ensures |text| == |FieldFront(sel)| + 3 + |rest|
    ensures text[|FieldFront(sel)|..|FieldFront(sel)| + 3] == "\") "
    ensures EndsWith(text, rest)
  {
    var head := "\n    " + sel.alias + ":";
    var front := FieldFront(sel);
    var tail := "\") " + rest;
    var text := front + tail;
    assert front[..|head|] == head;
    assert text[..|front|] == front;
    assert text[..|head|] == front[..|head|];
    assert text[|front|..] == tail;
    assert tail[..3] == "\") ";
    assert tail[3..] == rest;
    text
  }

  /**
   * The text of the template literal in `generateQuery`: the alias and the
   * repository, the closing `) `, and then nothing but the selection set.
   */
  function RenderSelection(sel: Selection): (text: string)
    ensures |text| >= 5 + |sel.alias| + 1
    ensures text[..5 + |sel.alias| + 1] == "\n    " + sel.alias + ":"
    ensures FieldFront(sel) <= text
    ensures |text| == |FieldFront(sel)| + 3 + |ReleaseSelectionSet|
    ensures text[|FieldFront(sel)|..|FieldFront(sel)| + 3] == "\") "
    ensures EndsWith(text, ReleaseSelectionSet)
  {
    Field(sel, ReleaseSelectionSet)
  }

  /**
   * After the alias, the field asks for the `repository` whose owner and name are
   * the selection's, each in quotes.
   */
  lemma RenderSelectionNamesRepository(sel: Selection)
    ensures var text := RenderSelection(sel);
            var head := "\n    " + sel.alias + ":";
            var ownerAt := |head| + |OwnerOpen|;
            var nameAt := ownerAt + |sel.owner| + |NameOpen|;
            && |text| >= nameAt + |sel.name|
            && text[|head|..ownerAt] == OwnerOpen
            && text[ownerAt..ownerAt + |sel.owner|] == sel.owner
            && text[ownerAt + |sel.owner|..nameAt] == NameOpen
            && text[nameAt..nameAt + |sel.name|] == sel.name
  {
    var head := "\n    " + sel.alias + ":";
    var front := FieldFront(sel);
    var text := RenderSelection(sel);
    FiveParts(head, OwnerOpen, sel.owner, NameOpen, sel.name);
    var ownerAt := |head| + |OwnerOpen|;
    var nameAt := ownerAt + |sel.owner| + |NameOpen|;
    assert text[..|front|] == front;
    assert text[|head|..ownerAt] == front[|head|..ownerAt];
    assert text[ownerAt..ownerAt + |sel.owner|] == front[ownerAt..ownerAt + |sel.owner|];
    assert text[ownerAt + |sel.owner|..nameAt] == front[ownerAt + |sel.owner|..nameAt];
    assert text[nameAt..nameAt + |sel.name|] == front[nameAt..];
  }

  /**
   * `names.map((agent, index) => generateQuery(agent, index))`: the field for each
   * name, at that name's position, in order.
   */
  function Selections(reg: Obj<Entry>, names: seq<string>): (r: Result<seq<Selection>>)
    ensures r.TypeError? <==> exists i :: 0 <= i < |names| && names[i] !in reg.fields
    ensures r.Ok? ==> |r.value| == |names|
    ensures r.Ok? ==> forall i :: 0 <= i < |names| ==> Ok(r.value[i]) == GenerateSelection(reg, names[i], i)
    decreases |names|
  {
    if names == [] then Ok([])
    else
      var n := |names| - 1;
      assert forall i :: 0 <= i < n ==> names[..n][i] == names[i];
      match Selections(reg, names[..n])
      case TypeError => TypeError
      case Ok(prefix) =>
        match GenerateSelection(reg, names[n], n)
        case TypeError => TypeError
        case Ok(last) => Ok(prefix + [last])
  }

  /** The aliases of the fields of one query are pairwise distinct. */
  lemma SelectionAliasesDistinct(reg: Obj<Entry>, names: seq<string>)
    requires Selections(reg, names).Ok?
    ensures var sels := Selections(reg, names).value;
            forall i, j :: 0 <= i < j < |sels| ==> sels[i].alias != sels[j].alias
  {
    var sels := Selections(reg, names).value;
    forall i, j | 0 <= i < j < |sels| ensures sels[i].alias != sels[j].alias {
      AliasInjective(i, j);
    }
  }

  /** `Array.prototype.join`. */
  function Join(parts: seq<string>, sep: string): string
    decreases |parts|
  {
    if parts == [] then ""
    else if |parts| == 1 then parts[0]
    else Join(parts[..|parts| - 1], sep) + sep + parts[|parts| - 1]
  }

  /** Joining one more part appends the separator and that part. */
  lemma JoinSnoc(parts: seq<string>, sep: string, p: string)
    requires |parts| >= 1
    ensures Join(parts + [p], sep) == Join(parts, sep) + sep + p
  {
    assert (parts + [p])[..|parts|] == parts;
  }

  /**
   * The joined text begins with the join of every prefix of the parts, and that
   * join ends with its last part: the parts appear in order.
   */
  lemma {:induction false} JoinKeepsOrder(parts: seq<string>, sep: string, m: nat)
    requires 1 <= m <= |parts|
    ensures var pre := Join(parts[..m], sep);
            EndsWith(pre, parts[m - 1]) && pre <= Join(parts, sep)
    decreases |parts|
  {
    var n := |parts| - 1;
    if m == |parts| {
      assert parts[..m] == parts;
    } else {
      assert parts[..n][..m] == parts[..m];
      JoinKeepsOrder(parts[..n], sep, m);
    }
  }

  function RenderAll(sels: seq<Selection>): (texts: seq<string>)
    ensures |texts| == |sels|
    ensures forall i :: 0 <= i < |sels| ==> texts[i] == RenderSelection(sels[i])
  {
    seq(|sels|, i requires 0 <= i < |sels| => RenderSelection(sels[i]))
  }

  const QueryHead: string := "\n    query {\n      "
  const QueryTail: string := "\n    }\n  "

  /** The query `helloPubSub` assembles from every key of the table, in key order. */
  function QueryText(reg: Obj<Entry>): (r: Result<string>)
    ensures Valid(reg) ==> r.Ok?
    ensures reg.keys == [] ==> r == Ok(QueryHead + QueryTail)
  {
    assert reg.keys == [] ==> Selections(reg, reg.keys) == Ok([]) && RenderAll([]) == [];
    assert QueryHead + Join([], "\n") + QueryTail == QueryHead + QueryTail;
    match Selections(reg, reg.keys)
    case TypeError => TypeError
    case Ok(sels) => Ok(QueryHead + Join(RenderAll(sels), "\n") + QueryTail)
  }

  /** A prefix ending in `t` stays a prefix ending in `t` under a common head and tail. */
  lemma FramedPrefix(head: string, pre: string, whole: string, tail: string, t: string)
    requires pre <= whole && EndsWith(pre, t)
    ensures head + pre <= head + whole + tail
    ensures EndsWith(head + pre, t)
  {
    assert (head + pre)[|head + pre| - |t|..] == pre[|pre| - |t|..];
    assert (head + whole + tail)[..|head + pre|] == head + pre;
  }

  /**
   * For a well-formed table the query holds, in key order, the field for every key:
   * field `i` ends the text up to it and carries alias `repo<i>`.
   */
  lemma QueryListsEveryKey(reg: Obj<Entry>, i: nat)
    requires Valid(reg)
    requires i < |reg.keys|
    ensures Selections(reg, reg.keys).Ok?
    ensures var sel := Selections(reg, reg.keys).value[i];
            var upTo := QueryHead + Join(RenderAll(Selections(reg, reg.keys).value)[..i + 1], "\n");
            && sel.alias == Alias(i)
            && upTo <= QueryText(reg).value
            && EndsWith(upTo, RenderSelection(sel))
  {
    var sels := Selections(reg, reg.keys).value;
    var texts := RenderAll(sels);
    assert Selections(reg, reg.keys).Ok?;
    assert QueryText(reg) == Ok(QueryHead + Join(texts, "\n") + QueryTail);
    assert GenerateSelection(reg, reg.keys[i], i) == Ok(sels[i]);
    assert texts[i] == RenderSelection(sels[i]);
    JoinKeepsOrder(texts, "\n", i + 1);
    FramedPrefix(QueryHead, Join(texts[..i + 1], "\n"), Join(texts, "\n"), QueryTail, texts[i]);
  }

  /**
   * Nothing follows the field of the last key but the closing of the query: with
   * `QueryListsEveryKey`, the query holds exactly one field per key.
   */
  lemma QueryEndsAfterLastKey(reg: Obj<Entry>)
    requires Valid(reg)
    requires |reg.keys| >= 1
    ensures Selections(reg, reg.keys).Ok?
    ensures var n := |reg.keys|;
            var upTo := QueryHead + Join(RenderAll(Selections(reg, reg.keys).value)[..n], "\n");
            QueryText(reg).value == upTo + QueryTail
  {
    var texts := RenderAll(Selections(reg, reg.keys).value);
    assert texts[..|reg.keys|] == texts;
  }

}
