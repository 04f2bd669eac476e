/**
 * The regular expressions the registry uses, all of the form `L(.*)`: a prefix `L`
 * of literal characters and `.` wildcards, followed by one capturing group that
 * takes the rest of the line. `Capture` is what `tag.match(new RegExp("L(.*)"))?.[1]`
 * evaluates to under the RegExp semantics of ECMA-262 (section 22.2), without the
 * `s`, `m`, `i` or `u` flags.
 */
module TailPattern {
  import opened Wrappers

  datatype Atom = Char(c: char) | Wildcard

  /** The pattern `L(.*)` where `L` is `prefix`. */
  datatype Pattern = Pattern(prefix: seq<Atom>)

  /** The characters `.` does not match (ECMA-262, section 22.2.2, LineTerminator). */
  predicate IsLineTerminator(c: char) {
    c == '\n' || c == '\r' || c == '\U{2028}' || c == '\U{2029}'
  }

  /** Characters that are not literals in a pattern. */
  predicate IsSyntaxChar(c: char) {
    || c == '^' || c == '$' || c == '\\' || c == '.' || c == '*' || c == '+' || c == '?'
    || c == '(' || c == ')' || c == '[' || c == ']' || c == '{' || c == '}' || c == '|'
  }

  const GroupText: string := "(.*)"

  // ---------------------------------------------------------------- syntax

  /** Literal atoms hold only characters that stand for themselves. */
  predicate WellFormed(p: Pattern) {
    forall i :: 0 <= i < |p.prefix| && p.prefix[i].Char? ==> !IsSyntaxChar(p.prefix[i].c)
  }

  function AtomText(a: Atom): char {
    match a
    case Char(c) => c
    case Wildcard => '.'
  }

  function Render(p: Pattern): (s: string)
    ensures |s| == |p.prefix| + |GroupText|
  {
    seq(|p.prefix|, i requires 0 <= i < |p.prefix| => AtomText(p.prefix[i])) + GroupText
  }

  function ParseAtom(c: char): Atom {
    if c == '.' then Wildcard else Char(c)
  }

  /** Reads pattern source text; `None` for text outside the `L(.*)` form. */
  function Parse(s: string): Option<Pattern> {
    if |s| >= |GroupText| && s[|s| - |GroupText|..] == GroupText
       && forall i :: 0 <= i < |s| - |GroupText| ==> s[i] == '.' || !IsSyntaxChar(s[i])
    then
      var n := |s| - |GroupText|;
      Some(Pattern(seq(n, i requires 0 <= i < n => ParseAtom(s[i]))))
    else None
  }

  /** What `Parse` accepts it reads back exactly: rendering the pattern gives the text. */
  lemma ParseSound(s: string)
    requires Parse(s).Some?
    ensures WellFormed(Parse(s).value) && Render(Parse(s).value) == s
  {
    var n := |s| - |GroupText|;
    var r := Render(Parse(s).value);
    assert r[..n] == s[..n];
    assert r == r[..n] + r[n..];
    assert s == s[..n] + s[n..];
  }

  lemma ParseRender(p: Pattern)
    requires WellFormed(p)
    ensures Parse(Render(p)) == Some(p)
  {
    var s := Render(p);
    var n := |p.prefix|;
    assert s[n..] == GroupText;
    assert forall i :: 0 <= i < n ==> s[i] == AtomText(p.prefix[i]);
    assert seq(n, i requires 0 <= i < n => ParseAtom(s[i])) == p.prefix;
  }

  // ---------------------------------------------------------------- matching

  predicate AtomMatches(a: Atom, c: char) {
    match a
    case Char(x) => c == x
    case Wildcard => !IsLineTerminator(c)
  }

  /** The prefix matches the text starting at position `i`. */
  predicate MatchesAt(prefix: seq<Atom>, s: string, i: nat) {
    i + |prefix| <= |s| && forall j :: 0 <= j < |prefix| ==> AtomMatches(prefix[j], s[i + j])
  }

  /** The end of the line that contains position `from`: where a greedy `.*` stops. */
  function LineEnd(s: string, from: nat): (e: nat)
    requires from <= |s|
    ensures from <= e <= |s|
    ensures forall j :: from <= j < e ==> !IsLineTerminator(s[j])
    ensures e < |s| ==> IsLineTerminator(s[e])
    decreases |s| - from
  {
    if from == |s| || IsLineTerminator(s[from]) then from else LineEnd(s, from + 1)
  }

  /** The leftmost position at or after `i` where the prefix matches. */
  function FindFrom(prefix: seq<Atom>, s: string, i: nat): (r: Option<nat>)
    requires i <= |s|
    ensures r.Some? ==> i <= r.value <= |s| && MatchesAt(prefix, s, r.value)
    ensures r.Some? ==> forall j :: i <= j < r.value ==> !MatchesAt(prefix, s, j)
    ensures r.None? ==> forall j :: i <= j <= |s| ==> !MatchesAt(prefix, s, j)
    decreases |s| - i
  {
    if MatchesAt(prefix, s, i) then Some(i)
    else if i == |s| then None
    else FindFrom(prefix, s, i + 1)
  }

  /** The rest of a line holds no line terminator. */
  lemma LineHasNoTerminator(s: string, from: nat)
    requires from <= |s|
    ensures var line := s[from..LineEnd(s, from)];
            forall j :: 0 <= j < |line| ==> !IsLineTerminator(line[j])
  {
    var line := s[from..LineEnd(s, from)];
    assert forall j :: 0 <= j < |line| ==> line[j] == s[from + j];
  }

  /**
   * Group 1 of `s.match(p)`: the search tries the start positions from left to
   * right; at the first one where the prefix matches, `(.*)` greedily takes the
   * rest of that line. `None` when the prefix occurs nowhere.
   */
  function Capture(p: Pattern, s: string): (r: Option<string>)
    ensures r.None? <==> forall i :: 0 <= i <= |s| ==> !MatchesAt(p.prefix, s, i)
    ensures r.Some? ==> exists i :: 0 <= i <= |s| && MatchesAt(p.prefix, s, i)
                                    && (forall j :: 0 <= j < i ==> !MatchesAt(p.prefix, s, j))
                                    && r.value == s[i + |p.prefix|..LineEnd(s, i + |p.prefix|)]
    ensures r.Some? ==> forall j :: 0 <= j < |r.value| ==> !IsLineTerminator(r.value[j])
  {
    match FindFrom(p.prefix, s, 0)
    case None => None
    case Some(i) =>
      var start := i + |p.prefix|;
      var line := s[start..LineEnd(s, start)];
      LineHasNoTerminator(s, start);
      assert 0 <= i <= |s| && MatchesAt(p.prefix, s, i) && (forall j :: 0 <= j < i ==> !MatchesAt(p.prefix, s, j));
      Some(line)
  }

  /** The pattern `(.*)` always matches and yields the first line of the text. */
  lemma EmptyPrefixTakesFirstLine(s: string)
    ensures Capture(Pattern([]), s) == Some(s[..LineEnd(s, 0)])
  {
    assert MatchesAt([], s, 0);
  }

  /** The atoms of a pattern whose prefix is the literal text `w`. */
  function Literal(w: string): (prefix: seq<Atom>)
    ensures |prefix| == |w|
    ensures forall i :: 0 <= i < |w| ==> prefix[i] == Char(w[i])
  {
    seq(|w|, i requires 0 <= i < |w| => Char(w[i]))
  }

  /**
   * A tag that starts with the pattern's literal prefix yields the rest of its
   * first line: `v(.*)` on `v1.2.3` gives `1.2.3`.
   */
  lemma LeadingLiteralYieldsRest(w: string, t: string)
    ensures Capture(Pattern(Literal(w)), w + t) == Some(t[..LineEnd(t, 0)])
  {
    var s := w + t;
    var p := Pattern(Literal(w));
    forall j | 0 <= j < |w| ensures AtomMatches(p.prefix[j], s[0 + j]) {
      assert s[j] == w[j];
    }
    assert |p.prefix| == |w|;
    assert MatchesAt(p.prefix, s, 0);
    CaptureAtStart(p, s);
    LineEndShift(w, t, 0);
    var e := LineEnd(t, 0);
    assert s[|w|..|w| + e] == t[..e];
  }

  lemma {:induction false} LineEndShift(w: string, t: string, k: nat)
    requires k <= |t|
    ensures LineEnd(w + t, |w| + k) == |w| + LineEnd(t, k)
    decreases |t| - k
  {
    var s := w + t;
    assert k < |t| ==> s[|w| + k] == t[k];
    if k < |t| && !IsLineTerminator(t[k]) {
      LineEndShift(w, t, k + 1);
    }
  }

  /** A prefix that matches at the very start captures the rest of the first line. */
  lemma CaptureAtStart(p: Pattern, s: string)
    requires MatchesAt(p.prefix, s, 0)
    ensures Capture(p, s) == Some(s[|p.prefix|..LineEnd(s, |p.prefix|)])
  {
  }

  /** In a text without line terminators `.*` runs to the end. */
  lemma LineEndOfSingleLine(s: string, from: nat)
    requires from <= |s|
    requires forall j :: from <= j < |s| ==> !IsLineTerminator(s[j])
    ensures LineEnd(s, from) == |s|
  {
  }

  /** A text in which the prefix occurs nowhere yields `undefined`. */
  lemma NoOccurrenceYieldsUndefined(p: Pattern, s: string)
    requires forall i :: 0 <= i <= |s| ==> !MatchesAt(p.prefix, s, i)
    ensures Capture(p, s) == None
  {
  }

}
