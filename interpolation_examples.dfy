/**
 * Worked cases of `format` and `_interpolate` on small tables: what the
 * matcher leaves alone, what `appendReplacement` refuses, and how many
 * passes a chain of references takes.
 */
module InterpolationExamples {
  import opened Wrappers
  import opened Interpolation

  /** A value that is one placeholder formats to what `Substitute` gives for its key. */
  lemma FormatPlaceholder(key: string, properties: Properties)
    requires IsIdent(key)
    ensures Formatted("${" + key + "}", properties) == Substitute("${" + key + "}", key, Accepted(properties))
  {
    var s := "${" + key + "}";
    assert s[0..|key| + 3] == s;
    FormattedFromPlaceholder(s, 0, key, Accepted(properties));
  }

  /** A value without '$' or '\' is accepted by `appendReplacement` as it is. */
  lemma AcceptedLiteral(key: string, properties: Properties)
    requires key in properties && Literal(properties[key])
    ensures key in Accepted(properties) && Accepted(properties)[key] == properties[key]
  {
    assert Replacement(key, properties) == Some(properties[key]);
  }

  /** A value that opens `${` before any other special character is refused by `appendReplacement`. */
  lemma RefusedNamedGroup(key: string, properties: Properties)
    requires key in properties && OpensNamedGroup(properties[key])
    ensures key !in Accepted(properties)
  {
    ExpandNamedGroup(properties[key], Groups(key));
  }

  lemma ThreePieces(a: string, b: string, c: string)
    ensures (a + b + c)[0..|a|] == a
    ensures (a + b + c)[|a|..|a| + |b|] == b
    ensures (a + b + c)[|a| + |b|..|a + b + c|] == c
  {
  }

  /** A stretch of `s` that equals text without '$' holds no '$'. */
  lemma NoDollarIn(s: string, i: nat, k: nat, piece: string)
    requires i <= k <= |s| && s[i..k] == piece && '$' !in piece
    ensures forall j :: i <= j < k ==> s[j] != '$'
  {
    forall j | i <= j < k ensures s[j] != '$' {
      assert s[j] == piece[j - i];
    }
  }

  /** A placeholder followed by text without '$' up to the end. */
  lemma FormatPlaceholderThenText(s: string, i: nat, key: string, suffix: string, table: map<string, string>)
    requires IsIdent(key) && i + |key| + 3 <= |s| && s[i..i + |key| + 3] == "${" + key + "}"
    requires s[i + |key| + 3..|s|] == suffix && '$' !in suffix
    ensures FormattedFrom(s, i, table) == Substitute("${" + key + "}", key, table) + suffix
  {
    var n := i + |key| + 3;
    NoDollarIn(s, n, |s|, suffix);
    FormattedFromLiteral(s, n, |s|, table);
    assert FormattedFrom(s, |s|, table) == [];
    assert FormattedFrom(s, n, table) == suffix by {
      assert s[n..|s|] + [] == s[n..|s|];
    }
    FormattedFromPlaceholder(s, i, key, table);
  }

  /**
   * A placeholder between two stretches of text without '$' is replaced as
   * `Substitute` says, and the text around it is kept.
   */
  lemma FormatOnePlaceholder(prefix: string, key: string, suffix: string, properties: Properties)
    requires '$' !in prefix && '$' !in suffix && IsIdent(key)
    ensures Formatted(prefix + ("${" + key + "}") + suffix, properties)
         == prefix + Substitute("${" + key + "}", key, Accepted(properties)) + suffix
  {
    var m := "${" + key + "}";
    var s := prefix + m + suffix;
    var t := Accepted(properties);
    assert FormattedFrom(s, 0, t) == prefix + (Substitute(m, key, t) + suffix) by {
      var i := |prefix|;
      ThreePieces(prefix, m, suffix);
      assert |m| == |key| + 3;
      FormatPlaceholderThenText(s, i, key, suffix, t);
      NoDollarIn(s, 0, i, prefix);
      FormattedFromLiteral(s, 0, i, t);
    }
  }

  /** One value can be made of a placeholder and plain text: `hi ${user}` with user `joe` is `hi joe`. */
  lemma FormatGreeting()
    ensures Formatted("hi " + "${user}", map["user" := "joe"]) == "hi joe"
  {
    var p := map["user" := "joe"];
    var e: string := [];
    FormatOnePlaceholder("hi ", "user", e, p);
    AcceptedLiteral("user", p);
    assert "${" + "user" + "}" == "${user}";
    assert "hi " + "${user}" + e == "hi " + "${user}";
    assert "hi " + "joe" + e == "hi joe";
  }

  /** `${}` is no match of PATTERN: the identifier group needs a character. */
  lemma FormatEmptyPlaceholder()
    ensures Formatted("${}", map["a" := "x"]) == "${}"
  {
    var p := map["a" := "x"];
    var s := "${}";
    forall n | 0 <= n < |s| ensures !ReplaceableAt(s, n, Accepted(p)) {
      if n == 0 {
        assert PlaceholderAt(s, 0).None?;
      }
    }
    FormatUnresolvable(s, p);
  }

  /** `${a b}` is no match of PATTERN: a space is no identifier character. */
  lemma FormatSpacedPlaceholder()
    ensures Formatted("${a b}", map["a" := "x"]) == "${a b}"
  {
    var p := map["a" := "x"];
    var s := "${a b}";
    forall n | 0 <= n < |s| ensures !ReplaceableAt(s, n, Accepted(p)) {
      if n == 0 {
        assert IdentEnd(s, 3) == 3;
        assert PlaceholderAt(s, 0).None?;
      }
    }
    FormatUnresolvable(s, p);
  }

  /** A placeholder whose key has no entry stays as it is. */
  lemma FormatMissingKey()
    ensures Formatted("${b}", map["a" := "x"]) == "${b}"
  {
    var p := map["a" := "x"];
    var s := "${b}";
    forall n | 0 <= n < |s| ensures !ReplaceableAt(s, n, Accepted(p)) {
      if n == 0 {
        assert "b" !in Accepted(p);
      }
    }
    FormatUnresolvable(s, p);
  }

  /** `$5` names a group the pattern does not have: `appendReplacement` refuses it and the placeholder stays. */
  lemma FormatMissingGroup()
    ensures Formatted("${a}", map["a" := "$5"]) == "${a}"
  {
    var p := map["a" := "$5"];
    assert DigitValue('5') == 5;
    assert GroupRef("$5", 2, 5, 3) == (5, 2);
    assert Replacement("a", p).None?;
    FormatPlaceholder("a", p);
  }

  /** A value still holding a placeholder opens a named group: it is refused and the placeholder stays. */
  lemma FormatUnresolvedValue()
    ensures Formatted("${a}", map["a" := "${b}", "b" := "x"]) == "${a}"
  {
    var q := map["a" := "${b}", "b" := "x"];
    RefusedNamedGroup("a", q);
    FormatPlaceholder("a", q);
  }

  /** `$0` in a value brings the whole placeholder back with it. */
  lemma FormatWholeMatchReference()
    ensures Formatted("${port}", map["port" := "[$0]"]) == "[${port}]"
  {
    var p := map["port" := "[$0]"];
    GroupReferences();
    assert Replacement("port", p) == Some("[${port}]");
    assert "port" in Accepted(p);
    FormatPlaceholder("port", p);
    assert "${" + "port" + "}" == "${port}";
  }

  /** A value that refers to itself, such as `port=${port}`, is left as it is, so `_interpolate` stops. */
  lemma SelfReferenceIsStable(key: string)
    requires IsIdent(key)
    ensures Stable(map[key := "${" + key + "}"])
  {
    var v := "${" + key + "}";
    var p := map[key := v];
    assert v[0] == '$' && v[1] == '{';
    FormatsToItself(key, p);
    forall k | k in p ensures Formatted(p[k], p) == p[k] {
      assert k == key;
    }
  }

  /** A placeholder whose key holds text without '$' or '\' is replaced by that text. */
  lemma FormatsToValue(key: string, properties: Properties)
    requires IsIdent(key) && key in properties && Literal(properties[key])
    ensures Formatted("${" + key + "}", properties) == properties[key]
  {
    AcceptedLiteral(key, properties);
    FormatPlaceholder(key, properties);
  }

  /** A placeholder whose key holds another placeholder is kept, to be retried on the next pass. */
  lemma FormatsToItself(key: string, properties: Properties)
    requires IsIdent(key) && key in properties && OpensNamedGroup(properties[key])
    ensures Formatted("${" + key + "}", properties) == "${" + key + "}"
  {
    RefusedNamedGroup(key, properties);
    FormatPlaceholder(key, properties);
  }

  /** A pass over three keys is three steps. */
  lemma PassOverThree(p: Properties, k1: string, k2: string, k3: string)
    ensures PassOver(p, [k1, k2, k3]) == Step(Step(Step(p, k1), k2), k3)
  {
    var q := Step(Step(Step(p, k1), k2), k3);
    assert [k1, k2, k3][1..] == [k2, k3] && [k2, k3][1..] == [k3] && [k3][1..] == [];
    assert PassOver(q, []) == q;
    assert PassOver(Step(Step(p, k1), k2), [k3]) == q;
    assert PassOver(Step(p, k1), [k2, k3]) == q;
  }

  /** The chain a -> b -> c of the examples, the table after one pass in the order a, b, c, and the resolved table. */
  function Chain(): Properties {
    map["a" := "${b}", "b" := "${c}", "c" := "x"]
  }

  function HalfResolved(): Properties {
    map["a" := "${b}", "b" := "x", "c" := "x"]
  }

  function Resolved(): Properties {
    map["a" := "x", "b" := "x", "c" := "x"]
  }

  lemma ChainKeys()
    ensures "${" + "b" + "}" == "${b}" && "${" + "c" + "}" == "${c}"
    ensures IsIdent("b") && IsIdent("c")
    ensures OpensNamedGroup("${b}") && OpensNamedGroup("${c}") && Literal("x")
  {
  }

  // One step of the entry loop on the chain tables.

  lemma ChainStepA()
    ensures Step(Chain(), "a") == Chain()
  {
    ChainKeys();
    FormatsToItself("b", Chain());
  }

  lemma ChainStepB()
    ensures Step(Chain(), "b") == HalfResolved()
  {
    ChainKeys();
    FormatsToValue("c", Chain());
  }

  lemma ChainStepC()
    ensures Step(Chain(), "c") == Chain()
  {
    assert Formatted("x", Chain()) == "x";
  }

  lemma HalfResolvedStepA()
    ensures Step(HalfResolved(), "a") == Resolved()
  {
    ChainKeys();
    FormatsToValue("b", HalfResolved());
  }

  lemma HalfResolvedStepC()
    ensures Step(HalfResolved(), "c") == HalfResolved()
  {
    assert Formatted("x", HalfResolved()) == "x";
  }

  /** In the order a, b, c the first pass resolves only b: a refers to a value that is still a placeholder. */
  lemma ChainFirstPass()
    ensures PassOver(Chain(), ["a", "b", "c"]) == HalfResolved()
  {
    ChainStepA();
    ChainStepB();
    HalfResolvedStepC();
    PassOverThree(Chain(), "a", "b", "c");
  }

  /** The second pass resolves a. */
  lemma ChainSecondPass()
    ensures PassOver(HalfResolved(), ["a", "b", "c"]) == Resolved()
  {
    HalfResolvedStepA();
    LiteralValuesAreStable(Resolved());
    StablePassOver(Resolved(), ["b", "c"]);
    assert ["a", "b", "c"][1..] == ["b", "c"];
  }

  /** A table of plain values stays as it is, whatever the order of the pass. */
  lemma ResolvedStaysResolved(order: seq<string>)
    ensures PassOver(Resolved(), order) == Resolved()
  {
    LiteralValuesAreStable(Resolved());
    StablePassOver(Resolved(), order);
  }

  lemma ChainTablesDiffer()
    ensures HalfResolved() != Chain() && Resolved() != HalfResolved() && Resolved() != Chain()
  {
    assert HalfResolved()["b"] != Chain()["b"];
    assert Resolved()["a"] != HalfResolved()["a"];
    assert Resolved()["a"] != Chain()["a"];
  }

  /** `_interpolate` resolves the chain in the order a, b, c: the third pass sees that nothing changes any more. */
  lemma ChainResolves()
    ensures Interpolated(Chain(), ["a", "b", "c"], 3) == Some(Resolved())
  {
    var order := ["a", "b", "c"];
    ChainFirstPass();
    ChainSecondPass();
    ResolvedStaysResolved(order);
    ChainTablesDiffer();
    InterpolatedMoves(Chain(), HalfResolved(), order, 3);
    InterpolatedMoves(HalfResolved(), Resolved(), order, 2);
    InterpolatedUnfold(Resolved(), order, 1);
  }

  /** Two passes are not enough for the chain in the order a, b, c. */
  lemma ChainNeedsThreePasses()
    ensures Interpolated(Chain(), ["a", "b", "c"], 2) == None
  {
    var order := ["a", "b", "c"];
    ChainFirstPass();
    ChainSecondPass();
    ChainTablesDiffer();
    InterpolatedMoves(Chain(), HalfResolved(), order, 2);
    InterpolatedMoves(HalfResolved(), Resolved(), order, 1);
  }

  /** In the order c, b, a one pass resolves the whole chain. */
  lemma ChainReverseFirstPass()
    ensures PassOver(Chain(), ["c", "b", "a"]) == Resolved()
  {
    ChainStepC();
    ChainStepB();
    HalfResolvedStepA();
    PassOverThree(Chain(), "c", "b", "a");
  }

  /** So in the order c, b, a two passes suffice: for this chain the result is the same, the number of passes is not. */
  lemma ChainInReverseOrder()
    ensures Interpolated(Chain(), ["c", "b", "a"], 2) == Some(Resolved())
  {
    var order := ["c", "b", "a"];
    ChainReverseFirstPass();
    ChainTablesDiffer();
    ResolvedStaysResolved(order);
    InterpolatedMoves(Chain(), Resolved(), order, 2);
    InterpolatedUnfold(Resolved(), order, 1);
  }

  // ---------------------------------------------------------------------------
  // A table `_interpolate` never finishes: `$0` brings the placeholder back

  function Repeat(c: char, n: nat): string
    ensures |Repeat(c, n)| == n
  {
    if n == 0 then [] else Repeat(c, n - 1) + [c]
  }

  lemma {:induction false} RepeatCommutes(c: char, n: nat)
    ensures Repeat(c, n) + [c] == [c] + Repeat(c, n)
  {
    if n > 0 {
      RepeatCommutes(c, n - 1);
      assert Repeat(c, n) + [c] == Repeat(c, n - 1) + [c] + [c];
    }
  }

  lemma {:induction false} RepeatHolds(c: char, n: nat, d: char)
    requires d != c
    ensures d !in Repeat(c, n)
  {
    if n > 0 {
      RepeatHolds(c, n - 1, d);
    }
  }

  /** `${b}` inside n pairs of brackets. */
  function Nested(n: nat): string {
    Repeat('[', n) + ("${" + "b" + "}") + Repeat(']', n)
  }

  /** a refers to b, and b's value `[$0]` puts the whole match, `${b}`, back in brackets. */
  function Runaway(n: nat): Properties {
    map["a" := Nested(n), "b" := "[$0]"]
  }

  /** What `appendReplacement` makes of `[$0]` for the match `${b}`. */
  lemma RunawayReplacement(n: nat)
    ensures "b" in Accepted(Runaway(n))
    ensures Accepted(Runaway(n))["b"] == ['['] + ("${" + "b" + "}") + [']']
  {
    var g := Groups("b");
    var e: string := [];
    assert Literal("]");
    assert DigitValue('0') == 0;
    ExpandGroup('0', "]", g);
    assert "[$0]"[1..] == ['$', '0'] + "]";
    assert Expand("[$0]", g) == Prepend(['['], Some(g[0] + "]"));
    assert ['['] + (g[0] + "]") == ['['] + ("${" + "b" + "}") + [']'];
    assert Replacement("b", Runaway(n)) == Some(['['] + ("${" + "b" + "}") + [']']);
  }

  /** `[$0]` holds no placeholder, so it stays as it is. */
  lemma RunawayKeepsB(n: nat)
    ensures Formatted("[$0]", Runaway(n)) == "[$0]"
  {
    var s := "[$0]";
    forall i | 0 <= i < |s| ensures !ReplaceableAt(s, i, Accepted(Runaway(n))) {
      if i == 1 {
        assert PlaceholderAt(s, 1).None?;
      }
    }
    FormatUnresolvable(s, Runaway(n));
  }

  /** Each pass wraps a in one more pair of brackets. */
  lemma RunawayGrows(n: nat)
    ensures Formatted(Nested(n), Runaway(n)) == Nested(n + 1)
  {
    assert IsIdent("b");
    RepeatHolds('[', n, '$');
    RepeatHolds(']', n, '$');
    FormatOnePlaceholder(Repeat('[', n), "b", Repeat(']', n), Runaway(n));
    RunawayReplacement(n);
    RepeatCommutes(']', n);
    var m := "${" + "b" + "}";
    assert Nested(n + 1) == Repeat('[', n) + (['['] + m + [']']) + Repeat(']', n) by {
      assert Repeat('[', n + 1) == Repeat('[', n) + ['['];
      assert Repeat(']', n + 1) == [']'] + Repeat(']', n);
    }
  }

  lemma RunawayPass(n: nat)
    ensures PassOver(Runaway(n), ["a", "b"]) == Runaway(n + 1)
  {
    RunawayGrows(n);
    var q := Runaway(n)["a" := Nested(n + 1)];
    assert q == Runaway(n + 1);
    RunawayKeepsB(n + 1);
    assert Step(q, "b") == q;
  }

  /** A pass changes the table: a grows by two characters. */
  lemma RunawayStep(n: nat)
    ensures PassOver(Runaway(n), ["a", "b"]) == Runaway(n + 1) != Runaway(n)
  {
    RunawayPass(n);
    assert |Runaway(n + 1)["a"]| != |Runaway(n)["a"]|;
  }

  /** However much fuel is given, `_interpolate` does not come to rest on this table: the Java loop would not end. */
  lemma RunawayDiverges(fuel: nat)
    ensures Interpolated(Runaway(0), ["a", "b"], fuel) == None
  {
    forall m: nat ensures PassOver(Runaway(m), ["a", "b"]) == Runaway(m + 1) && Runaway(m + 1) != Runaway(m) {
      RunawayStep(m);
    }
    InterpolatedRunsAway(Runaway, ["a", "b"], 0, fuel);
  }

  // ---------------------------------------------------------------------------
  // A table on which the iteration order changes the result

  /** a = `${b}`, b = `\${c}`, c = `x\$2`: an escaped placeholder and a group reference. */
  function Escapes(): Properties {
    map["a" := "${b}", "b" := "\\${c}", "c" := "x\\$2"]
  }

  /** No '$' of `s` is followed by '{', so PATTERN finds nothing in it. */
  predicate NoPlaceholderStart(s: string) {
    forall j :: 0 <= j < |s| - 1 && s[j] == '$' ==> s[j + 1] != '{'
  }

  lemma FormatsWithoutPlaceholder(s: string, properties: Properties)
    requires NoPlaceholderStart(s)
    ensures Formatted(s, properties) == s
  {
    forall n | 0 <= n < |s| ensures !ReplaceableAt(s, n, Accepted(properties)) {
      assert PlaceholderAt(s, n).None?;
    }
    FormatUnresolvable(s, properties);
  }

  lemma EscapesHaveNoPlaceholder()
    ensures NoPlaceholderStart("x\\$2") && NoPlaceholderStart("\\x$2") && NoPlaceholderStart("x$2")
  {
    assert "x\\$2"[3] == '2' && "\\x$2"[3] == '2' && "x$2"[2] == '2';
  }

  /** What `appendReplacement` makes of the three values. */
  lemma EscapeReplacements()
    ensures Expand("x\\$2", Groups("c")) == Some("x$2")
    ensures Expand("\\${c}", Groups("b")) == Some("${c}")
    ensures Expand("\\x$2", Groups("b")) == Some("xb")
  {
    var e: string := [];
    assert Literal("2") && Literal("{c}");
    ExpandEscape('$', "2", Groups("c"));
    assert "x\\$2"[1..] == ['\\', '$'] + "2";
    assert Expand(['\\', '$'] + "2", Groups("c")) == Some("$2") by {
      assert ['$'] + "2" == "$2";
    }
    assert Expand("x\\$2", Groups("c")) == Prepend(['x'], Some("$2"));
    assert ['x'] + "$2" == "x$2";
    ExpandEscape('$', "{c}", Groups("b"));
    assert "\\${c}" == ['\\', '$'] + "{c}" && ['$'] + "{c}" == "${c}";
    assert DigitValue('2') == 2;
    ExpandGroup('2', e, Groups("b"));
    assert Expand("$2", Groups("b")) == Some("b") by {
      assert "$2" == ['$', '2'] + e && "b" + e == "b";
    }
    ExpandEscape('x', "$2", Groups("b"));
    assert "\\x$2" == ['\\', 'x'] + "$2" && ['x'] + "b" == "xb";
  }

  /** In a table where c is `x\$2`, `\${c}` formats to `\x$2`: the escape before the placeholder is plain text. */
  lemma FormatEscapedPlaceholder(properties: Properties)
    requires "c" in properties && properties["c"] == "x\\$2"
    ensures Formatted("\\${c}", properties) == "\\x$2"
  {
    var e: string := [];
    EscapeReplacements();
    assert Replacement("c", properties) == Some("x$2");
    assert IsIdent("c");
    FormatOnePlaceholder("\\", "c", e, properties);
    assert "\\" + ("${" + "c" + "}") + e == "\\${c}";
    assert "\\" + "x$2" + e == "\\x$2";
  }

  /** `${key}` formats to the text `appendReplacement` makes of the key's value. */
  lemma FormatsToReplacement(key: string, properties: Properties, text: string)
    requires IsIdent(key) && key in properties && Expand(properties[key], Groups(key)) == Some(text)
    ensures Formatted("${" + key + "}", properties) == text
  {
    assert Replacement(key, properties) == Some(text);
    FormatPlaceholder(key, properties);
  }

  /** The three placeholders the two orders meet, in any table holding the values they refer to. */
  lemma EscapedCBehindB(p: Properties)
    requires "b" in p && p["b"] == "\\${c}"
    ensures Formatted("${b}", p) == "${c}"
  {
    EscapeReplacements();
    assert "${" + "b" + "}" == "${b}" && IsIdent("b");
    FormatsToReplacement("b", p, "${c}");
  }

  lemma GroupReferenceBehindC(p: Properties)
    requires "c" in p && p["c"] == "x\\$2"
    ensures Formatted("${c}", p) == "x$2"
  {
    EscapeReplacements();
    assert "${" + "c" + "}" == "${c}" && IsIdent("c");
    FormatsToReplacement("c", p, "x$2");
  }

  lemma KeyReferenceBehindB(p: Properties)
    requires "b" in p && p["b"] == "\\x$2"
    ensures Formatted("${b}", p) == "xb"
  {
    EscapeReplacements();
    assert "${" + "b" + "}" == "${b}" && IsIdent("b");
    FormatsToReplacement("b", p, "xb");
  }

  // The order a, b, c: after the first pass a holds b's escaped placeholder `${c}`, which the second pass resolves.

  function EscapesFirst(): Properties {
    map["a" := "${c}", "b" := "\\x$2", "c" := "x\\$2"]
  }

  function EscapesInOrder(): Properties {
    map["a" := "x$2", "b" := "\\x$2", "c" := "x\\$2"]
  }

  lemma EscapesStepA()
    ensures Step(Escapes(), "a") == Escapes()["a" := "${c}"]
  {
    EscapedCBehindB(Escapes());
  }

  lemma EscapesStepB()
    ensures Step(Escapes()["a" := "${c}"], "b") == EscapesFirst()
  {
    FormatEscapedPlaceholder(Escapes()["a" := "${c}"]);
  }

  lemma EscapesFirstStepA()
    ensures Step(EscapesFirst(), "a") == EscapesInOrder()
  {
    GroupReferenceBehindC(EscapesFirst());
    assert EscapesFirst()["a" := "x$2"] == EscapesInOrder();
  }

  lemma EscapesFirstStepC()
    ensures Step(EscapesFirst(), "c") == EscapesFirst()
  {
    EscapesHaveNoPlaceholder();
    FormatsWithoutPlaceholder("x\\$2", EscapesFirst());
  }

  lemma EscapesInOrderIsStable()
    ensures Stable(EscapesInOrder())
  {
    var p := EscapesInOrder();
    EscapesHaveNoPlaceholder();
    FormatsWithoutPlaceholder("x$2", p);
    FormatsWithoutPlaceholder("\\x$2", p);
    FormatsWithoutPlaceholder("x\\$2", p);
    forall k | k in p ensures Formatted(p[k], p) == p[k] {
      assert k == "a" || k == "b" || k == "c";
    }
  }

  lemma EscapesInOrderPasses()
    ensures PassOver(Escapes(), ["a", "b", "c"]) == EscapesFirst()
    ensures PassOver(EscapesFirst(), ["a", "b", "c"]) == EscapesInOrder()
  {
    EscapesStepA();
    EscapesStepB();
    EscapesFirstStepC();
    PassOverThree(Escapes(), "a", "b", "c");
    EscapesFirstStepA();
    EscapesInOrderIsStable();
    StablePassOver(EscapesInOrder(), ["b", "c"]);
    assert ["a", "b", "c"][1..] == ["b", "c"];
  }

  // The order b, a, c: b is resolved first, and a then copies `\x$2`, whose `$2` is the key "b".

  function EscapesBFirst(): Properties {
    map["a" := "${b}", "b" := "\\x$2", "c" := "x\\$2"]
  }

  function EscapesOutOfOrder(): Properties {
    map["a" := "xb", "b" := "\\x$2", "c" := "x\\$2"]
  }

  lemma EscapesStepBFirst()
    ensures Step(Escapes(), "b") == EscapesBFirst()
  {
    FormatEscapedPlaceholder(Escapes());
    assert Escapes()["b" := "\\x$2"] == EscapesBFirst();
  }

  lemma EscapesStepAAfterB()
    ensures Step(EscapesBFirst(), "a") == EscapesOutOfOrder()
  {
    KeyReferenceBehindB(EscapesBFirst());
    assert EscapesBFirst()["a" := "xb"] == EscapesOutOfOrder();
  }

  lemma EscapesOutOfOrderIsStable()
    ensures Stable(EscapesOutOfOrder())
  {
    var p := EscapesOutOfOrder();
    EscapesHaveNoPlaceholder();
    FormatsWithoutPlaceholder("\\x$2", p);
    FormatsWithoutPlaceholder("x\\$2", p);
    assert Formatted("xb", p) == "xb";
    forall k | k in p ensures Formatted(p[k], p) == p[k] {
      assert k == "a" || k == "b" || k == "c";
    }
  }

  lemma EscapesOutOfOrderPass()
    ensures PassOver(Escapes(), ["b", "a", "c"]) == EscapesOutOfOrder()
  {
    EscapesStepBFirst();
    EscapesStepAAfterB();
    EscapesOutOfOrderIsStable();
    StablePassOver(EscapesOutOfOrder(), ["c"]);
    PassOverThree(Escapes(), "b", "a", "c");
    assert PassOver(EscapesOutOfOrder(), ["c"]) == Step(EscapesOutOfOrder(), "c");
  }

  lemma EscapesTablesDiffer()
    ensures EscapesFirst() != Escapes() && EscapesInOrder() != EscapesFirst() && EscapesOutOfOrder() != Escapes()
    ensures EscapesInOrder()["a"] != EscapesOutOfOrder()["a"]
  {
    assert EscapesFirst()["a"] != Escapes()["a"];
    assert EscapesInOrder()["a"] != EscapesFirst()["a"];
    assert EscapesOutOfOrder()["a"] != Escapes()["a"];
  }

  /**
   * The result of `interpolate` can depend on the hashtable's iteration
   * order: over the same table, the orders a, b, c and b, a, c both come to
   * rest, and leave a as `x$2` and as `xb`.
   */
  /** In the order a, b, c the loop stops after three passes with a = `x$2`. */
  lemma EscapesInOrderResult()
    ensures Interpolated(Escapes(), ["a", "b", "c"], 3) == Some(EscapesInOrder())
  {
    var order := ["a", "b", "c"];
    EscapesInOrderPasses();
    EscapesTablesDiffer();
    EscapesInOrderIsStable();
    StablePassOver(EscapesInOrder(), order);
    InterpolatedMoves(Escapes(), EscapesFirst(), order, 3);
    InterpolatedMoves(EscapesFirst(), EscapesInOrder(), order, 2);
    InterpolatedUnfold(EscapesInOrder(), order, 1);
  }

  /** In the order b, a, c it stops after two passes with a = `xb`. */
  lemma EscapesOutOfOrderResult()
    ensures Interpolated(Escapes(), ["b", "a", "c"], 2) == Some(EscapesOutOfOrder())
  {
    var order := ["b", "a", "c"];
    EscapesOutOfOrderPass();
    EscapesTablesDiffer();
    EscapesOutOfOrderIsStable();
    StablePassOver(EscapesOutOfOrder(), order);
    InterpolatedMoves(Escapes(), EscapesOutOfOrder(), order, 2);
    InterpolatedUnfold(EscapesOutOfOrder(), order, 1);
  }

  lemma EscapesOrders()
    ensures IsOrderOf(["a", "b", "c"], Escapes().Keys) && IsOrderOf(["b", "a", "c"], Escapes().Keys)
  {
    assert ["a", "b", "c"][1..] == ["b", "c"] && ["b", "c"][1..] == ["c"];
    assert ["b", "a", "c"][1..] == ["a", "c"] && ["a", "c"][1..] == ["c"];
  }

  lemma OrderMatters()
    ensures IsOrderOf(["a", "b", "c"], Escapes().Keys) && IsOrderOf(["b", "a", "c"], Escapes().Keys)
    ensures Interpolated(Escapes(), ["a", "b", "c"], 3) == Some(EscapesInOrder())
    ensures Interpolated(Escapes(), ["b", "a", "c"], 2) == Some(EscapesOutOfOrder())
    ensures EscapesInOrder()["a"] == "x$2" && EscapesOutOfOrder()["a"] == "xb"
  {
    EscapesOrders();
    EscapesInOrderResult();
    EscapesOutOfOrderResult();
  }
}
