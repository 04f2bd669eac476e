/**
 * Ordinary JavaScript objects with string keys: the own property keys in
 * insertion order, and the value of each. Object literals, property writes and
 * object spread are the only operations the program performs on them.
 */
module JsObject {
  import opened Wrappers

  datatype Obj<V> = Obj(keys: seq<string>, fields: map<string, V>)

  /**
   * Whether a key could be an array index, whose place in `Object.keys` is by
   * numeric value instead of insertion: only a run of decimal digits can be one.
   */
  predicate DigitsOnly(k: string) {
    |k| > 0 && forall i :: 0 <= i < |k| ==> '0' <= k[i] <= '9'
  }

  /** Every key is listed once, and exactly the keys that have a value are listed. */
  ghost predicate Valid<V>(o: Obj<V>) {
    && (forall i, j :: 0 <= i < j < |o.keys| ==> o.keys[i] != o.keys[j])
    && (forall k :: k in o.fields <==> k in o.keys)
  }

  function Empty<V>(): (o: Obj<V>)
    ensures Valid(o) && o.fields == map[] && o.keys == []
  {
    Obj([], map[])
  }

  /** The object literal `{[k]: v}` with one computed key. */
  function Singleton<V>(k: string, v: V): (o: Obj<V>)
    ensures Valid(o) && o.fields == map[k := v] && o.keys == [k]
  {
    Obj([k], map[k := v])
  }

  /** Property read `o[k]`; `None` is `undefined`. */
  function Get<V>(o: Obj<V>, k: string): Option<V> {
    if k in o.fields then Some(o.fields[k]) else None
  }

  /**
   * Property write `o[k] = v`: an existing key keeps its position and gets the new
   * value, a new key is appended.
   */
  function Put<V>(o: Obj<V>, k: string, v: V): (r: Obj<V>)
    requires Valid(o)
    ensures Valid(r)
    ensures r.fields == o.fields[k := v]
    ensures k in o.fields ==> r.keys == o.keys
    ensures k !in o.fields ==> r.keys == o.keys + [k]
  {
    Obj(if k in o.fields then o.keys else o.keys + [k], o.fields[k := v])
  }

  /**
   * Evaluation of an object literal `{k0: v0, k1: v1, ...}`: the properties are
   * defined left to right, so a repeated key keeps the position of its first
   * occurrence and the value of its last.
   */
  function FromPairs<V>(ps: seq<(string, V)>): (o: Obj<V>)
    ensures Valid(o)
    decreases |ps|
  {
    if ps == [] then Empty()
    else
      var n := |ps| - 1;
      var o' := FromPairs(ps[..n]);
      assert forall i :: 0 <= i < n ==> ps[..n][i] == ps[i];
      Put(o', ps[n].0, ps[n].1)
  }

  /** A pair that no later pair overrides gives the literal's value for its key. */
  lemma {:induction false} FromPairsLastWins<V>(ps: seq<(string, V)>, i: nat)
    requires i < |ps|
    requires forall j :: i < j < |ps| ==> ps[j].0 != ps[i].0
    ensures Get(FromPairs(ps), ps[i].0) == Some(ps[i].1)
    decreases |ps|
  {
    var n := |ps| - 1;
    var prefix := ps[..n];
    var k := ps[i].0;
    var whole := FromPairs(ps).fields;
    assert whole == FromPairs(prefix).fields[ps[n].0 := ps[n].1];
    if i < n {
      assert prefix[i] == ps[i];
      forall j | i < j < n ensures prefix[j].0 != k {
        assert prefix[j] == ps[j];
      }
      FromPairsLastWins(prefix, i);
      assert ps[n].0 != k;
      assert whole[k] == FromPairs(prefix).fields[k];
    }
  }

  /** The position of the last pair that names `k`, or -1 when none does. */
  function LastIndex<V>(ps: seq<(string, V)>, k: string): (i: int)
    ensures -1 <= i < |ps|
    ensures i >= 0 ==> ps[i].0 == k
    ensures forall j :: i < j < |ps| ==> ps[j].0 != k
    decreases |ps|
  {
    if ps == [] then -1
    else if ps[|ps| - 1].0 == k then |ps| - 1
    else LastIndex(ps[..|ps| - 1], k)
  }

  /** A literal has a property only for a key some pair names. */
  lemma {:induction false} FromPairsKeyNamed<V>(ps: seq<(string, V)>, k: string)
    requires k in FromPairs(ps).fields
    ensures LastIndex(ps, k) >= 0
    decreases |ps|
  {
    var n := |ps| - 1;
    var prefix := ps[..n];
    assert FromPairs(ps) == Put(FromPairs(prefix), ps[n].0, ps[n].1);
    if ps[n].0 != k {
      assert LastIndex(ps, k) == LastIndex(prefix, k);
      FromPairsKeyNamed(prefix, k);
    }
  }

  /** Every value of a literal comes from the last pair that names its key. */
  lemma FromPairsSource<V>(ps: seq<(string, V)>, k: string)
    requires k in FromPairs(ps).fields
    ensures var i := LastIndex(ps, k);
            0 <= i && ps[i].1 == FromPairs(ps).fields[k]
  {
    FromPairsKeyNamed(ps, k);
    FromPairsLastWins(ps, LastIndex(ps, k));
  }

  /** The position of the first pair that names `k`, or -1 when none does. */
  function FirstIndex<V>(ps: seq<(string, V)>, k: string): (i: int)
    ensures -1 <= i < |ps|
    ensures i >= 0 ==> ps[i].0 == k
    ensures forall j :: 0 <= j < |ps| && (i < 0 || j < i) ==> ps[j].0 != k
    decreases |ps|
  {
    if ps == [] then -1
    else
      var n := |ps| - 1;
      var i := FirstIndex(ps[..n], k);
      assert forall j :: 0 <= j < n ==> ps[..n][j] == ps[j];
      if i >= 0 then i else if ps[n].0 == k then n else -1
  }

  /** A literal has a property exactly for the keys its pairs name. */
  lemma {:induction false} FromPairsKeys<V>(ps: seq<(string, V)>, k: string)
    ensures k in FromPairs(ps).fields <==> FirstIndex(ps, k) >= 0
    decreases |ps|
  {
    if ps != [] {
      var n := |ps| - 1;
      var prefix := ps[..n];
      assert FromPairs(ps).fields == FromPairs(prefix).fields[ps[n].0 := ps[n].1];
      FromPairsKeys(prefix, k);
    }
  }

  /**
   * The keys of a literal are listed in the order of their first occurrence among
   * the pairs. This is the order `Object.keys` reports when no key is an array
   * index, which JavaScript would list first.
   */
  lemma {:induction false} FromPairsKeyOrder<V>(ps: seq<(string, V)>, a: nat, b: nat)
    requires a < b < |FromPairs(ps).keys|
    ensures var keys := FromPairs(ps).keys;
            0 <= FirstIndex(ps, keys[a]) < FirstIndex(ps, keys[b])
    decreases |ps|
  {
    var n := |ps| - 1;
    var prefix := ps[..n];
    var o' := FromPairs(prefix);
    var keys := FromPairs(ps).keys;
    assert FromPairs(ps) == Put(o', ps[n].0, ps[n].1);
    assert keys[a] == o'.keys[a];
    FromPairsKeys(prefix, keys[a]);
    if b < |o'.keys| {
      assert keys[b] == o'.keys[b];
      FromPairsKeys(prefix, keys[b]);
      FromPairsKeyOrder(prefix, a, b);
    } else {
      assert keys[b] == ps[n].0 && ps[n].0 !in o'.fields;
      FromPairsKeys(prefix, ps[n].0);
    }
  }

  /** A literal without repeated keys lists its keys in the order written. */
  lemma {:induction false} FromPairsDistinctKeys<V>(ps: seq<(string, V)>)
    requires forall i, j :: 0 <= i < j < |ps| ==> ps[i].0 != ps[j].0
    ensures FromPairs(ps).keys == seq(|ps|, i requires 0 <= i < |ps| => ps[i].0)
    decreases |ps|
  {
    if ps != [] {
      var n := |ps| - 1;
      var prefix := ps[..n];
      FromPairsDistinctKeys(prefix);
      FromPairsKeys(prefix, ps[n].0);
      assert FromPairs(ps) == Put(FromPairs(prefix), ps[n].0, ps[n].1);
    }
  }

  /** When every value of one literal is a key of another, so is every property value of the first. */
  lemma ValuesNameKeys<W>(ps: seq<(string, string)>, qs: seq<(string, W)>, at: seq<nat>)
    requires |at| == |ps|
    requires forall i :: 0 <= i < |ps| ==> at[i] < |qs| && ps[i].1 == qs[at[i]].0
    ensures forall k :: k in FromPairs(ps).fields ==> FromPairs(ps).fields[k] in FromPairs(qs).fields
  {
    forall k | k in FromPairs(ps).fields ensures FromPairs(ps).fields[k] in FromPairs(qs).fields {
      FromPairsSource(ps, k);
      var i := LastIndex(ps, k);
      FromPairsKeys(qs, ps[i].1);
    }
  }

  /** `keys` followed by the members of `extra` it lacks, in their order in `extra`. */
  function AppendNew(keys: seq<string>, extra: seq<string>): (r: seq<string>)
    ensures keys <= r
    ensures forall k :: k in r <==> k in keys || k in extra
    ensures (forall i, j :: 0 <= i < j < |keys| ==> keys[i] != keys[j]) ==>
              forall i, j :: 0 <= i < j < |r| ==> r[i] != r[j]
    decreases |extra|
  {
    if extra == [] then keys
    else if extra[0] in keys then AppendNew(keys, extra[1..])
    else AppendNew(keys + [extra[0]], extra[1..])
  }

  /**
   * Object spread `{...a, ...b}`: the properties of `a`, then those of `b`; a key
   * present in both takes `b`'s value and keeps `a`'s position.
   */
  function Assign<V>(a: Obj<V>, b: Obj<V>): (r: Obj<V>)
    requires Valid(a) && Valid(b)
    ensures Valid(r)
    ensures r.fields == a.fields + b.fields
    ensures a.keys <= r.keys
  {
    Obj(AppendNew(a.keys, b.keys), a.fields + b.fields)
  }

  /** Spreading a one-key object over `a` is the property write `a[k] = v`. */
  lemma SpreadSingleton<V>(a: Obj<V>, k: string, v: V)
    requires Valid(a)
    ensures Assign(a, Singleton(k, v)) == Put(a, k, v)
  {
    assert [k][1..] == [];
    assert AppendNew(a.keys, [k]) == if k in a.keys then a.keys else a.keys + [k];
    assert (k in a.keys) == (k in a.fields);
    assert a.fields + map[k := v] == a.fields[k := v];
  }

}
