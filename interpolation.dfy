/**
 * Placeholder interpolation: `${key}` references inside property values are
 * replaced by the values of other entries of the same table, pass after pass,
 * until a whole pass changes nothing.
 *
 * Two pieces of Java library behaviour are part of the model: the matching of
 * PATTERN = (\$\{)([\w._-]+)(}) by `Matcher.find`, and the processing of the
 * replacement text by `Matcher.appendReplacement`, which expands `$n` group
 * references and `\` escapes and throws on anything else that starts with '$'.
 * The iteration order of the hashtable behind `Properties` is not modelled: it
 * is an input, a sequence listing every key of the table once. A pass only
 * calls `setValue`, which never rehashes, so one order serves every pass.
 */
module Interpolation {
  import opened Wrappers

  type Properties = map<string, string>

  /** No key occurs twice in `order`. */
  predicate Distinct(order: seq<string>)
    decreases |order|
  {
    order == [] || (order[0] !in order[1..] && Distinct(order[1..]))
  }

  lemma {:induction false} DistinctAt(order: seq<string>, i: nat, j: nat)
    requires Distinct(order) && i < j < |order|
    ensures order[i] != order[j]
    decreases i
  {
    assert order[1..][j - 1] == order[j];
    if i > 0 {
      assert order[1..][i - 1] == order[i];
      DistinctAt(order[1..], i - 1, j - 1);
    }
  }

  /** `order` lists every key of `keys` once and nothing else. */
  predicate IsOrderOf(order: seq<string>, keys: set<string>) {
    && Distinct(order)
    && (forall k :: k in keys ==> k in order)
    && (forall i :: 0 <= i < |order| ==> order[i] in keys)
  }

  // ---------------------------------------------------------------------------
  // PATTERN = (\$\{)([\w._-]+)(})

  predicate IdentChar(c: char) {
    ('a' <= c <= 'z') || ('A' <= c <= 'Z') || ('0' <= c <= '9') || c == '_' || c == '.' || c == '-'
  }

  predicate IsIdent(k: string) {
    |k| > 0 && forall i :: 0 <= i < |k| ==> IdentChar(k[i])
  }

  /** `p` is, as a whole, one match of PATTERN. */
  predicate MatchesPattern(p: string) {
    |p| >= 4 && p[0] == '$' && p[1] == '{' && p[|p| - 1] == '}' && IsIdent(p[2..|p| - 1])
  }

  /** The end of the run of identifier characters starting at `i` (see IdentEndIsMaximal). */
  function IdentEnd(s: string, i: nat): (j: nat)
    requires i <= |s|
    ensures i <= j <= |s|
    decreases |s| - i
  {
    if i < |s| && IdentChar(s[i]) then IdentEnd(s, i + 1) else i
  }

  /** `IdentEnd` stops at the first character that cannot be part of an identifier. */
  lemma {:induction false} IdentEndIsMaximal(s: string, i: nat)
    requires i <= |s|
    ensures forall k :: i <= k < IdentEnd(s, i) ==> IdentChar(s[k])
    ensures IdentEnd(s, i) < |s| ==> !IdentChar(s[IdentEnd(s, i)])
    decreases |s| - i
  {
    if i < |s| && IdentChar(s[i]) {
      IdentEndIsMaximal(s, i + 1);
    }
  }

  /**
   * Whether a match of PATTERN starts at position `i` of `s`: Some(e) when
   * `s[i..e+1]` is that match, `e` being the position of its '}'
   * (see PlaceholderIsPatternMatch).
   */
  function PlaceholderAt(s: string, i: nat): (r: Option<nat>)
    requires i <= |s|
    ensures r.Some? ==> i + 3 <= r.value < |s| && s[i] == '$'
  {
    if i + 2 <= |s| && s[i] == '$' && s[i + 1] == '{' then
      var e := IdentEnd(s, i + 2);
      if e > i + 2 && e < |s| && s[e] == '}' then Some(e) else None
    else None
  }

  /**
   * `PlaceholderAt` finds exactly the matches of PATTERN that start at `i`.
   * The greedy identifier group cannot stop before a '}' that it could also
   * consume, so there is at most one.
   */
  lemma PlaceholderIsPatternMatch(s: string, i: nat, n: nat)
    requires i <= n <= |s|
    ensures MatchesPattern(s[i..n]) <==> PlaceholderAt(s, i) == Some(n - 1)
  {
    var p := s[i..n];
    if i + 2 <= |s| {
      IdentEndIsMaximal(s, i + 2);
    }
    if MatchesPattern(p) {
      assert p[0] == s[i] && p[1] == s[i + 1] && p[|p| - 1] == s[n - 1];
      var key := p[2..|p| - 1];
      forall k | i + 2 <= k < n - 1 ensures IdentChar(s[k]) {
        assert key[k - i - 2] == p[k - i] == s[k];
      }
      assert !IdentChar(s[n - 1]);
      assert IdentEnd(s, i + 2) == n - 1;
    }
    if PlaceholderAt(s, i) == Some(n - 1) {
      var key := s[i + 2..n - 1];
      assert |p| == n - i;
      forall k | 0 <= k < |key| ensures p[2..|p| - 1][k] == key[k] {
        assert p[2..|p| - 1][k] == p[k + 2] == s[i + k + 2];
      }
      assert p[2..|p| - 1] == key;
      forall k | 0 <= k < |key| ensures IdentChar(key[k]) {
        assert key[k] == s[k + i + 2];
      }
    }
  }

  // ---------------------------------------------------------------------------
  // Matcher.appendReplacement: the replacement text

  /** The groups of a match of PATTERN for `key`: the whole match, then groups 1 to 3. */
  function Groups(key: string): seq<string> {
    ["${" + key + "}", "${", key, "}"]
  }

  predicate Digit(c: char) {
    '0' <= c <= '9'
  }

  function DigitValue(c: char): nat
    requires Digit(c)
  {
    c as int - '0' as int
  }

  /**
   * The group number that continues at position `i` of `r`, the digits before
   * `i` having made `ref`: further digits are taken while the number stays a
   * group of the pattern. Returns the number and the position after it.
   */
  function GroupRef(r: string, i: nat, ref: nat, groupCount: nat): (res: (nat, nat))
    requires i <= |r|
    ensures i <= res.1 <= |r|
    decreases |r| - i
  {
    if i < |r| && Digit(r[i]) && ref * 10 + DigitValue(r[i]) <= groupCount then
      GroupRef(r, i + 1, ref * 10 + DigitValue(r[i]), groupCount)
    else (ref, i)
  }

  function Prepend(p: string, o: Option<string>): Option<string> {
    match o
    case Some(t) => Some(p + t)
    case None => None
  }

  /**
   * The text `appendReplacement` inserts for replacement `r`, or None where it
   * throws: a trailing `\`, a `$` at the end or before neither a digit nor '{',
   * any `${name}` (the pattern has no named groups), a group number beyond the
   * pattern's groups.
   */
  function Expand(r: string, groups: seq<string>): (e: Option<string>)
    requires |groups| >= 1
    ensures Literal(r) ==> e == Some(r)
    decreases |r|
  {
    if r == [] then Some([])
    else if r[0] == '\\' then
      if |r| == 1 then None else Prepend([r[1]], Expand(r[2..], groups))
    else if r[0] == '$' then
      if |r| == 1 || r[1] == '{' || !Digit(r[1]) then None
      else
        var (ref, next) := GroupRef(r, 2, DigitValue(r[1]), |groups| - 1);
        if ref < |groups| then Prepend(groups[ref], Expand(r[next..], groups)) else None
    else
      assert Literal(r) ==> Literal(r[1..]) by {
        assert forall c :: c in r[1..] ==> c in r;
      }
      assert [r[0]] + r[1..] == r;
      Prepend([r[0]], Expand(r[1..], groups))
  }

  /** Text that `appendReplacement` copies unchanged. */
  predicate Literal(v: string) {
    '$' !in v && '\\' !in v
  }

  /** The first special character of `v` is a '$' directly followed by '{'. */
  predicate OpensNamedGroup(v: string) {
    if v == [] then false
    else if v[0] == '\\' then false
    else if v[0] == '$' then |v| >= 2 && v[1] == '{'
    else OpensNamedGroup(v[1..])
  }

  /** A value that holds an unexpanded `${...}` ahead of any other special character is refused. */
  lemma {:induction false} ExpandNamedGroup(v: string, groups: seq<string>)
    requires |groups| >= 1 && OpensNamedGroup(v)
    ensures Expand(v, groups) == None
    decreases |v|
  {
    if v[0] != '$' {
      ExpandNamedGroup(v[1..], groups);
    }
  }

  /** `$n` inserts group n when no further digit extends it to a group of the pattern. */
  lemma ExpandGroup(d: char, rest: string, groups: seq<string>)
    requires |groups| >= 1 && Digit(d) && DigitValue(d) < |groups|
    requires rest == [] || !Digit(rest[0]) || DigitValue(d) * 10 + DigitValue(rest[0]) >= |groups|
    ensures Expand(['$', d] + rest, groups) == Prepend(groups[DigitValue(d)], Expand(rest, groups))
  {
    var r := ['$', d] + rest;
    assert r[2..] == rest;
    if rest != [] {
      assert r[2] == rest[0];
    }
    assert GroupRef(r, 2, DigitValue(d), |groups| - 1) == (DigitValue(d), 2);
  }

  /** `\c` inserts `c` itself. */
  lemma ExpandEscape(c: char, rest: string, groups: seq<string>)
    requires |groups| >= 1
    ensures Expand(['\\', c] + rest, groups) == Prepend([c], Expand(rest, groups))
  {
    assert (['\\', c] + rest)[2..] == rest;
  }

  /** `$2` stands for the key itself and `$0` for the whole placeholder; `$4` is not a group. */
  lemma GroupReferences()
    ensures Expand("$2", Groups("port")) == Some("port")
    ensures Expand("[$0]", Groups("port")) == Some("[${port}]")
    ensures Expand("$4", Groups("port")) == None
    ensures Expand("a\\$b", Groups("port")) == Some("a$b")
  {
    var g := Groups("port");
    var e: string := [];
    assert DigitValue('2') == 2 && DigitValue('0') == 0 && DigitValue('4') == 4;
    ExpandGroup('2', e, g);
    assert "$2" == ['$', '2'] + e && "port" + e == "port";
    assert Literal("]");
    ExpandGroup('0', "]", g);
    assert g[0] + "]" == "${port}]";
    assert Expand(['$', '0'] + "]", g) == Some("${port}]");
    assert "[$0]"[1..] == ['$', '0'] + "]";
    assert Expand("[$0]", g) == Prepend(['['], Some("${port}]"));
    assert ['['] + "${port}]" == "[${port}]";
    assert GroupRef("$4", 2, 4, 3) == (4, 2);
    assert Literal("b");
    ExpandEscape('$', "b", g);
    assert ['$'] + "b" == "$b";
    assert "a\\$b"[1..] == ['\\', '$'] + "b";
    assert Expand("a\\$b", g) == Prepend(['a'], Some("$b"));
    assert ['a'] + "$b" == "a$b";
  }

  // ---------------------------------------------------------------------------
  // format

  /** The text `appendReplacement` builds for `key`, if the key is present and its value is accepted. */
  function Replacement(key: string, properties: Properties): (r: Option<string>)
    ensures r.Some? ==> key in properties
    ensures key in properties && Literal(properties[key]) ==> r == Some(properties[key])
  {
    if key in properties then Expand(properties[key], Groups(key)) else None
  }

  /**
   * The replacement table of `properties`: every key whose value
   * `appendReplacement` accepts, with the text it appends for it.
   */
  function Accepted(properties: Properties): (table: map<string, string>)
    ensures table.Keys <= properties.Keys
  {
    map key | key in properties && Replacement(key, properties).Some? :: Replacement(key, properties).value
  }

  /**
   * The text that stands for the match `match_` of placeholder `key`: its
   * replacement when there is one, otherwise the match itself (nothing was
   * appended for it).
   */
  function Substitute(match_: string, key: string, table: map<string, string>): string {
    if key in table then table[key] else match_
  }

  /**
   * What `format` emits at position `i` and where it carries on: the text
   * standing for the match that starts there, or the character itself. After
   * a match, replaced or not, the search resumes after its closing brace.
   */
  function PieceAt(input: string, i: nat, table: map<string, string>): (r: (string, nat))
    requires i < |input|
    ensures i < r.1 <= |input|
  {
    var found := PlaceholderAt(input, i);
    if found.Some? then (Substitute(input[i..found.value + 1], input[i + 2..found.value], table), found.value + 1)
    else ([input[i]], i + 1)
  }

  /** What `format` produces for `input` from position `i` on, given the replacement table. */
  function FormattedFrom(input: string, i: nat, table: map<string, string>): string
    requires i <= |input|
    decreases |input| - i
  {
    if i == |input| then []
    else
      var piece := PieceAt(input, i, table);
      piece.0 + FormattedFrom(input, piece.1, table)
  }

  /** The value `format` returns; text without '$' comes back unchanged. */
  function Formatted(input: string, properties: Properties): (r: string)
    ensures '$' !in input ==> r == input
  {
    assert '$' !in input ==> FormattedFrom(input, 0, Accepted(properties)) == input by {
      if '$' !in input {
        assert input[0..|input|] == input;
        FormattedFromLiteral(input, 0, |input|, Accepted(properties));
      }
    }
    FormattedFrom(input, 0, Accepted(properties))
  }

  lemma SliceSplit(s: string, i: nat, j: nat, k: nat)
    requires i <= j <= k <= |s|
    ensures s[i..k] == s[i..j] + s[j..k]
  {
  }

  lemma SuffixSplit(s: string, i: nat, j: nat)
    requires i <= j <= |s|
    ensures s[i..] == s[i..j] + s[j..]
  {
  }

  /** The loop invariant of `Format`: what is appended, plus what is pending, plus the rest formatted. */
  predicate FormatProgress(input: string, table: map<string, string>, buf: string, last: nat, pos: nat) {
    last <= pos <= |input| &&
    buf + input[last..pos] + FormattedFrom(input, pos, table) == FormattedFrom(input, 0, table)
  }

  /** `format` at position `i`: the piece emitted there, then the rest. */
  lemma FormattedFromStep(s: string, i: nat, table: map<string, string>)
    requires i < |s|
    ensures FormattedFrom(s, i, table) == PieceAt(s, i, table).0 + FormattedFrom(s, PieceAt(s, i, table).1, table)
  {
  }

  /** `format` at a match of PATTERN ending at `e`. */
  lemma FormattedFromMatch(s: string, i: nat, e: nat, table: map<string, string>)
    requires i < |s| && PlaceholderAt(s, i) == Some(e)
    ensures FormattedFrom(s, i, table) == Substitute(s[i..e + 1], s[i + 2..e], table) + FormattedFrom(s, e + 1, table)
  {
    assert PieceAt(s, i, table) == (Substitute(s[i..e + 1], s[i + 2..e], table), e + 1);
    FormattedFromStep(s, i, table);
  }

  /** `format` at a character that starts no match. */
  lemma FormattedFromChar(s: string, i: nat, table: map<string, string>)
    requires i < |s| && PlaceholderAt(s, i).None?
    ensures FormattedFrom(s, i, table) == [s[i]] + FormattedFrom(s, i + 1, table)
  {
  }

  lemma MoveToBuffer(a: string, v: string, t: string, w: string)
    requires a + (v + t) == w
    ensures a + v + [] + t == w
  {
  }

  lemma MoveToPending(buf: string, pending: string, m: string, t: string, w: string)
    requires buf + pending + (m + t) == w
    ensures buf + (pending + m) + t == w
  {
  }

  /** A match whose replacement is appended: the pending text and the replacement move into the buffer. */
  lemma ProgressReplaced(input: string, table: map<string, string>, buf: string, last: nat, pos: nat, e: nat)
    requires FormatProgress(input, table, buf, last, pos) && pos < |input|
    requires PlaceholderAt(input, pos) == Some(e) && input[pos + 2..e] in table
    ensures FormatProgress(input, table, buf + input[last..pos] + table[input[pos + 2..e]], e + 1, e + 1)
  {
    FormattedFromMatch(input, pos, e, table);
    assert input[e + 1..e + 1] == [];
    MoveToBuffer(buf + input[last..pos], table[input[pos + 2..e]], FormattedFrom(input, e + 1, table),
      FormattedFrom(input, 0, table));
  }

  /** A match that stays verbatim: it joins the pending text. */
  lemma ProgressKept(input: string, table: map<string, string>, buf: string, last: nat, pos: nat, e: nat)
    requires FormatProgress(input, table, buf, last, pos) && pos < |input|
    requires PlaceholderAt(input, pos) == Some(e) && input[pos + 2..e] !in table
    ensures FormatProgress(input, table, buf, last, e + 1)
  {
    FormattedFromMatch(input, pos, e, table);
    SliceSplit(input, last, pos, e + 1);
    MoveToPending(buf, input[last..pos], input[pos..e + 1], FormattedFrom(input, e + 1, table),
      FormattedFrom(input, 0, table));
  }

  /** A character that starts no match joins the pending text. */
  lemma ProgressOther(input: string, table: map<string, string>, buf: string, last: nat, pos: nat)
    requires FormatProgress(input, table, buf, last, pos) && pos < |input|
    requires PlaceholderAt(input, pos).None?
    ensures FormatProgress(input, table, buf, last, pos + 1)
  {
    FormattedFromChar(input, pos, table);
    SliceSplit(input, last, pos, pos + 1);
    assert input[pos..pos + 1] == [input[pos]];
    MoveToPending(buf, input[last..pos], [input[pos]], FormattedFrom(input, pos + 1, table),
      FormattedFrom(input, 0, table));
  }

  /**
   * The body of the find loop for a match ending at `e`: `properties.get`,
   * then `appendReplacement` when the value can be expanded; when it throws,
   * the exception is swallowed and nothing is appended.
   */
  method AppendMatch(input: string, properties: Properties, buf: string, last: nat, pos: nat, e: nat)
    returns (buf': string, last': nat)
    requires FormatProgress(input, Accepted(properties), buf, last, pos) && pos < |input|
    requires PlaceholderAt(input, pos) == Some(e)
    ensures FormatProgress(input, Accepted(properties), buf', last', e + 1)
  {
    var key := input[pos + 2..e];
    var value := Replacement(key, properties);
    if value.Some? {
      ProgressReplaced(input, Accepted(properties), buf, last, pos, e);
      buf', last' := buf + input[last..pos] + value.value, e + 1;
    } else {
      ProgressKept(input, Accepted(properties), buf, last, pos, e);
      buf', last' := buf, last;
    }
  }

  /**
   * One round of `matcher.find()` from `pos`: a match of PATTERN is consumed
   * (and, if its replacement can be built, appended together with the text
   * before it), or the search moves past one character.
   */
  method FindNext(input: string, properties: Properties, buf: string, last: nat, pos: nat)
    returns (buf': string, last': nat, pos': nat)
    requires FormatProgress(input, Accepted(properties), buf, last, pos) && pos < |input|
    ensures FormatProgress(input, Accepted(properties), buf', last', pos') && pos < pos'
  {
    var found := PlaceholderAt(input, pos);
    if found.Some? {
      buf', last' := AppendMatch(input, properties, buf, last, pos, found.value);
      pos' := found.value + 1;
    } else {
      ProgressOther(input, Accepted(properties), buf, last, pos);
      buf', last', pos' := buf, last, pos + 1;
    }
  }

  /** `format`: the `matcher.find()` loop appending to a buffer, then `appendTail`. */
  method Format(input: string, properties: Properties) returns (formatted: string)
    ensures formatted == Formatted(input, properties)
  {
    var buf: string := [];
    var last: nat, pos: nat := 0, 0;
    while pos < |input|
      invariant FormatProgress(input, Accepted(properties), buf, last, pos)
      decreases |input| - pos
    {
      buf, last, pos := FindNext(input, properties, buf, last, pos);
    }
    formatted := buf + input[last..];
  }

  /** A match of PATTERN starts at position `n` and its key has a replacement in `table`. */
  predicate ReplaceableAt(s: string, n: nat, table: map<string, string>)
    requires n <= |s|
  {
    match PlaceholderAt(s, n)
    case Some(e) => s[n + 2..e] in table
    case None => false
  }

  /** No match of PATTERN from position `i` on has a replacement in `table`. */
  ghost predicate UnresolvableFrom(s: string, i: nat, table: map<string, string>) {
    forall n :: i <= n < |s| ==> !ReplaceableAt(s, n, table)
  }

  lemma UnresolvableFromLater(s: string, i: nat, j: nat, table: map<string, string>)
    requires i <= j && UnresolvableFrom(s, i, table)
    ensures UnresolvableFrom(s, j, table)
  {
  }

  /** Where no replacement starts, `format` emits the characters it steps over unchanged. */
  lemma PieceIsVerbatim(s: string, i: nat, table: map<string, string>)
    requires i < |s| && !ReplaceableAt(s, i, table)
    ensures PieceAt(s, i, table).0 == s[i..PieceAt(s, i, table).1]
  {
    if PlaceholderAt(s, i).None? {
      assert s[i..i + 1] == [s[i]];
    }
  }

  lemma {:induction false} FormattedFromUnresolvable(s: string, i: nat, table: map<string, string>)
    requires i <= |s| && UnresolvableFrom(s, i, table)
    ensures FormattedFrom(s, i, table) == s[i..]
    decreases |s| - i
  {
    if i < |s| {
      var next := PieceAt(s, i, table).1;
      assert !ReplaceableAt(s, i, table);
      PieceIsVerbatim(s, i, table);
      UnresolvableFromLater(s, i, next, table);
      FormattedFromUnresolvable(s, next, table);
      SuffixSplit(s, i, next);
    }
  }

  /**
   * Input in which no match of PATTERN can be replaced comes back unchanged:
   * `${}`, `${a b}`, keys that are absent, values `appendReplacement` refuses.
   */
  lemma FormatUnresolvable(s: string, properties: Properties)
    requires UnresolvableFrom(s, 0, Accepted(properties))
    ensures Formatted(s, properties) == s
  {
    FormattedFromUnresolvable(s, 0, Accepted(properties));
    assert s[0..] == s;
  }

  lemma ConsSlice(s: string, i: nat, k: nat)
    requires i < k <= |s|
    ensures s[i..k] == [s[i]] + s[i + 1..k]
  {
  }

  lemma Regroup(a: string, b: string, c: string)
    ensures a + (b + c) == (a + b) + c
  {
  }

  /** A stretch without '$' is copied as it is, and `format` carries on after it. */
  lemma {:induction false} FormattedFromLiteral(s: string, i: nat, k: nat, table: map<string, string>)
    requires i <= k <= |s| && forall j :: i <= j < k ==> s[j] != '$'
    ensures FormattedFrom(s, i, table) == s[i..k] + FormattedFrom(s, k, table)
    decreases k - i
  {
    if i < k {
      assert PlaceholderAt(s, i).None? by { assert s[i] != '$'; }
      FormattedFromChar(s, i, table);
      FormattedFromLiteral(s, i + 1, k, table);
      ConsSlice(s, i, k);
      Regroup([s[i]], s[i + 1..k], FormattedFrom(s, k, table));
    }
  }

  /** `${key}` at position `i` is the match PATTERN finds there, with `key` as its group 2. */
  lemma PlaceholderOfKey(s: string, i: nat, key: string)
    requires IsIdent(key) && i + |key| + 3 <= |s| && s[i..i + |key| + 3] == "${" + key + "}"
    ensures PlaceholderAt(s, i) == Some(i + |key| + 2)
    ensures s[i + 2..i + |key| + 2] == key
  {
    var n := i + |key| + 3;
    var m := "${" + key + "}";
    assert |m| == |key| + 3 && m[0] == '$' && m[1] == '{' && m[|m| - 1] == '}';
    assert m[2..|m| - 1] == key by {
      forall k | 0 <= k < |key| ensures m[2..|m| - 1][k] == key[k] {
        assert m[k + 2] == key[k];
      }
    }
    assert MatchesPattern(s[i..n]);
    PlaceholderIsPatternMatch(s, i, n);
    forall k | 0 <= k < |key| ensures s[i + 2..n - 1][k] == key[k] {
      assert s[i + 2 + k] == s[i..n][k + 2] == m[k + 2];
    }
  }

  /** A placeholder `${key}` at position `i` is replaced as `Substitute` says, and `format` carries on after it. */
  lemma FormattedFromPlaceholder(s: string, i: nat, key: string, table: map<string, string>)
    requires IsIdent(key) && i + |key| + 3 <= |s| && s[i..i + |key| + 3] == "${" + key + "}"
    ensures FormattedFrom(s, i, table) == Substitute("${" + key + "}", key, table) + FormattedFrom(s, i + |key| + 3, table)
  {
    var n := i + |key| + 3;
    assert s[i + 2..n - 1] == key by {
      PlaceholderOfKey(s, i, key);
    }
    assert FormattedFrom(s, i, table) == Substitute(s[i..n], s[i + 2..n - 1], table) + FormattedFrom(s, n, table) by {
      PlaceholderOfKey(s, i, key);
      FormattedFromMatch(s, i, n - 1, table);
    }
  }

  // ---------------------------------------------------------------------------
  // _interpolate

  /** One iteration of the entry loop: `setValue(format(value, interpolated))`. */
  function Step(properties: Properties, key: string): (r: Properties)
    ensures r.Keys == properties.Keys
    ensures forall k :: k in properties && k != key ==> r[k] == properties[k]
  {
    if key in properties then properties[key := Formatted(properties[key], properties)] else properties
  }

  /** The entry loop over the keys `keys`, each step seeing the updates of the earlier ones. */
  function PassOver(properties: Properties, keys: seq<string>): (r: Properties)
    ensures r.Keys == properties.Keys
    decreases |keys|
  {
    if keys == [] then properties else PassOver(Step(properties, keys[0]), keys[1..])
  }

  /** A pass leaves the keys it does not visit alone. */
  lemma {:induction false} PassOverUntouched(properties: Properties, keys: seq<string>, k: string)
    requires k in properties && k !in keys
    ensures PassOver(properties, keys)[k] == properties[k]
    decreases |keys|
  {
    if keys != [] {
      assert k != keys[0] && k !in keys[1..];
      PassOverUntouched(Step(properties, keys[0]), keys[1..], k);
    }
  }

  /** Every value formats to itself against the table. */
  predicate Stable(properties: Properties) {
    forall k :: k in properties ==> Formatted(properties[k], properties) == properties[k]
  }

  /** The result of `_interpolate` when it stops within `fuel` passes; None where it would still be looping. */
  function Interpolated(properties: Properties, order: seq<string>, fuel: nat): (r: Option<Properties>)
    ensures r.Some? ==> r.value.Keys == properties.Keys
    decreases fuel
  {
    if fuel == 0 then None
    else
      var next := PassOver(properties, order);
      if next == properties then Some(properties) else Interpolated(next, order, fuel - 1)
  }

  /** The invariant of the entry loop: `next` is part-way through the pass over `order` that starts from `properties`. */
  predicate PassProgress(properties: Properties, order: seq<string>, next: Properties, i: nat) {
    && i <= |order|
    && next.Keys == properties.Keys
    && PassOver(next, order[i..]) == PassOver(properties, order)
    && (forall n :: i <= n < |order| ==> order[n] in next && next[order[n]] == properties[order[n]])
  }

  /** Visiting the entry at `order[i]` moves the pass one entry on. */
  lemma PassAdvance(properties: Properties, order: seq<string>, next: Properties, i: nat)
    requires Distinct(order)
    requires PassProgress(properties, order, next, i) && i < |order|
    ensures order[i] in next && next[order[i]] == properties[order[i]]
    ensures PassProgress(properties, order, Step(next, order[i]), i + 1)
  {
    assert order[i..][1..] == order[i + 1..];
    var next' := Step(next, order[i]);
    forall n | i + 1 <= n < |order| ensures order[n] in next' && next'[order[n]] == properties[order[n]] {
      DistinctAt(order, i, n);
    }
  }

  /**
   * One iteration of the entry loop, at `order[i]`: the value is formatted
   * against the table as it stands and stored back if it changed.
   */
  method Visit(properties: Properties, order: seq<string>, next: Properties, i: nat, changed: bool)
    returns (next': Properties, changed': bool)
    requires Distinct(order) && PassProgress(properties, order, next, i) && i < |order|
    requires changed <==> next != properties
    ensures PassProgress(properties, order, next', i + 1)
    ensures changed' <==> next' != properties
  {
    var key := order[i];
    PassAdvance(properties, order, next, i);
    var value := next[key];
    var formatted := Format(value, next);
    if value != formatted {
      next', changed' := next[key := formatted], true;
      assert next'[key] != properties[key];
    } else {
      assert next[key := formatted] == next;
      next', changed' := next, changed;
    }
  }

  /** One run of the `for (entry : entrySet())` loop; `changed` is the `interpolating` flag. */
  method Pass(properties: Properties, order: seq<string>) returns (next: Properties, changed: bool)
    requires IsOrderOf(order, properties.Keys)
    ensures next == PassOver(properties, order)
    ensures changed <==> next != properties
  {
    next, changed := properties, false;
    var i: nat := 0;
    assert order[0..] == order;
    while i < |order|
      invariant PassProgress(properties, order, next, i)
      invariant changed <==> next != properties
      decreases |order| - i
    {
      next, changed := Visit(properties, order, next, i, changed);
      i := i + 1;
    }
  }

  /** `Interpolated`, one pass at a time. */
  lemma InterpolatedUnfold(properties: Properties, order: seq<string>, fuel: nat)
    requires fuel >= 1
    ensures PassOver(properties, order) == properties ==> Interpolated(properties, order, fuel) == Some(properties)
    ensures PassOver(properties, order) != properties ==>
      Interpolated(properties, order, fuel) == Interpolated(PassOver(properties, order), order, fuel - 1)
  {
  }

  /** A pass that changes the table hands the rest of the fuel on to the changed table. */
  lemma InterpolatedMoves(properties: Properties, next: Properties, order: seq<string>, fuel: nat)
    requires fuel >= 1 && PassOver(properties, order) == next && next != properties
    ensures Interpolated(properties, order, fuel) == Interpolated(next, order, fuel - 1)
  {
  }

  /** A pass that changes nothing ends the loop of `_interpolate` with a stable table. */
  lemma InterpolatedStops(properties: Properties, order: seq<string>, fuel: nat)
    requires IsOrderOf(order, properties.Keys) && fuel >= 1
    requires PassOver(properties, order) == properties
    ensures Interpolated(properties, order, fuel) == Some(properties) && Stable(properties)
  {
    FixedPointIsStable(properties, order);
  }

  /**
   * `interpolate` (with its `copy`) and `_interpolate`, stopping after at most
   * `fuel` passes; `order` is the table's iteration order.
   */
  method Interpolate(properties: Properties, order: seq<string>, fuel: nat) returns (result: Option<Properties>)
    requires IsOrderOf(order, properties.Keys)
    ensures result == Interpolated(properties, order, fuel)
    ensures result.Some? ==> result.value.Keys == properties.Keys && Stable(result.value)
  {
    var interpolated := properties;  // the copy: map values are never shared
    var remaining := fuel;
    while remaining > 0
      invariant interpolated.Keys == properties.Keys
      invariant Interpolated(interpolated, order, remaining) == Interpolated(properties, order, fuel)
    {
      var next, interpolating := Pass(interpolated, order);
      if !interpolating {
        InterpolatedStops(interpolated, order, remaining);
        return Some(interpolated);
      }
      InterpolatedMoves(interpolated, next, order, remaining);
      interpolated, remaining := next, remaining - 1;
    }
    result := None;
  }

  // ---------------------------------------------------------------------------
  // Properties of the loop

  lemma {:induction false} StablePassOver(properties: Properties, keys: seq<string>)
    requires Stable(properties)
    ensures PassOver(properties, keys) == properties
    decreases |keys|
  {
    if keys != [] {
      var k := keys[0];
      if k in properties {
        assert properties[k := properties[k]] == properties;
      }
      StablePassOver(properties, keys[1..]);
    }
  }

  lemma {:induction false} UnstablePassOverChanges(properties: Properties, keys: seq<string>, i: nat)
    requires Distinct(keys)
    requires forall n :: 0 <= n < |keys| ==> keys[n] in properties
    requires i < |keys| && Formatted(properties[keys[i]], properties) != properties[keys[i]]
    ensures PassOver(properties, keys) != properties
    decreases |keys|
  {
    var k := keys[0];
    var stepped := Step(properties, k);
    if Formatted(properties[k], properties) == properties[k] {
      assert stepped == properties;
      assert i > 0;
      assert keys[1..][i - 1] == keys[i];
      UnstablePassOverChanges(properties, keys[1..], i - 1);
    } else {
      PassOverUntouched(stepped, keys[1..], k);
      assert PassOver(properties, keys)[k] == stepped[k] != properties[k];
    }
  }

  /** A pass changes nothing exactly when every value is already stable, whatever the iteration order. */
  lemma FixedPointIsStable(properties: Properties, order: seq<string>)
    requires IsOrderOf(order, properties.Keys)
    ensures PassOver(properties, order) == properties <==> Stable(properties)
  {
    if Stable(properties) {
      StablePassOver(properties, order);
    } else {
      var k :| k in properties && Formatted(properties[k], properties) != properties[k];
      assert k in order;
      var i :| 0 <= i < |order| && order[i] == k;
      UnstablePassOverChanges(properties, order, i);
    }
  }

  /** `_interpolate` stops only where a pass changes nothing. */
  lemma {:induction false} InterpolatedIsFixedPoint(properties: Properties, order: seq<string>, fuel: nat)
    requires Interpolated(properties, order, fuel).Some?
    ensures PassOver(Interpolated(properties, order, fuel).value, order) == Interpolated(properties, order, fuel).value
    decreases fuel
  {
    InterpolatedUnfold(properties, order, fuel);
    if PassOver(properties, order) != properties {
      InterpolatedIsFixedPoint(PassOver(properties, order), order, fuel - 1);
    }
  }

  /** What `_interpolate` returns keeps the input's keys and has every placeholder that can be resolved resolved. */
  lemma InterpolatedIsStable(properties: Properties, order: seq<string>, fuel: nat)
    requires IsOrderOf(order, properties.Keys)
    requires Interpolated(properties, order, fuel).Some?
    ensures Interpolated(properties, order, fuel).value.Keys == properties.Keys
    ensures Stable(Interpolated(properties, order, fuel).value)
  {
    InterpolatedIsFixedPoint(properties, order, fuel);
    FixedPointIsStable(Interpolated(properties, order, fuel).value, order);
  }

  /** Interpolating an interpolated table gives it back after one pass. */
  lemma Idempotent(properties: Properties, order: seq<string>, fuel: nat, fuel': nat)
    requires Interpolated(properties, order, fuel).Some? && fuel' >= 1
    ensures Interpolated(Interpolated(properties, order, fuel).value, order, fuel') == Interpolated(properties, order, fuel)
  {
    InterpolatedIsFixedPoint(properties, order, fuel);
    InterpolatedUnfold(Interpolated(properties, order, fuel).value, order, fuel');
  }

  /** The table after `k` passes of the entry loop. */
  function Iterate(properties: Properties, order: seq<string>, k: nat): Properties
    decreases k
  {
    if k == 0 then properties else Iterate(PassOver(properties, order), order, k - 1)
  }

  /** Where every one of the first `fuel` passes changes something, `_interpolate` has not stopped. */
  lemma {:induction false} InterpolatedNoneIfMoving(properties: Properties, order: seq<string>, fuel: nat)
    requires forall k :: 0 <= k < fuel ==> PassOver(Iterate(properties, order, k), order) != Iterate(properties, order, k)
    ensures Interpolated(properties, order, fuel) == None
    decreases fuel
  {
    if fuel > 0 {
      var next := PassOver(properties, order);
      assert Iterate(properties, order, 0) == properties;
      forall k | 0 <= k < fuel - 1
        ensures PassOver(Iterate(next, order, k), order) != Iterate(next, order, k)
      {
        assert Iterate(properties, order, k + 1) == Iterate(next, order, k);
      }
      InterpolatedNoneIfMoving(next, order, fuel - 1);
    }
  }

  /**
   * A table whose passes run along an endless chain of distinct tables never
   * comes to rest: `_interpolate` loops for ever on it.
   */
  lemma {:induction false} InterpolatedRunsAway(chain: nat -> Properties, order: seq<string>, n: nat, fuel: nat)
    requires forall m: nat {:trigger PassOver(chain(m), order)} ::
      PassOver(chain(m), order) == chain(m + 1) && chain(m + 1) != chain(m)
    ensures Interpolated(chain(n), order, fuel) == None
    decreases fuel
  {
    if fuel > 0 {
      InterpolatedMoves(chain(n), chain(n + 1), order, fuel);
      InterpolatedRunsAway(chain, order, n + 1, fuel - 1);
    }
  }

  /** `_interpolate` returns the table after the first pass that changes nothing, if that pass is within the fuel. */
  lemma {:induction false} InterpolatedIsFirstRest(properties: Properties, order: seq<string>, fuel: nat, k: nat)
    requires k < fuel
    requires PassOver(Iterate(properties, order, k), order) == Iterate(properties, order, k)
    requires forall j :: 0 <= j < k ==> PassOver(Iterate(properties, order, j), order) != Iterate(properties, order, j)
    ensures Interpolated(properties, order, fuel) == Some(Iterate(properties, order, k))
    decreases k
  {
    var next := PassOver(properties, order);
    assert Iterate(properties, order, 0) == properties;
    if k > 0 {
      assert next != properties;
      forall j | 0 <= j < k - 1
        ensures PassOver(Iterate(next, order, j), order) != Iterate(next, order, j)
      {
        assert Iterate(properties, order, j + 1) == Iterate(next, order, j);
      }
      assert Iterate(properties, order, k) == Iterate(next, order, k - 1);
      InterpolatedIsFirstRest(next, order, fuel - 1, k - 1);
    }
  }

  /** A fully expanded table is returned as it is, whatever the iteration order. */
  lemma StableIsFixed(properties: Properties, order: seq<string>, fuel: nat)
    requires IsOrderOf(order, properties.Keys) && Stable(properties) && fuel >= 1
    ensures Interpolated(properties, order, fuel) == Some(properties)
  {
    FixedPointIsStable(properties, order);
  }

  /** A table whose values hold no '$' is already fully expanded. */
  lemma LiteralValuesAreStable(properties: Properties)
    requires forall k :: k in properties ==> '$' !in properties[k]
    ensures Stable(properties)
  {
  }
}
